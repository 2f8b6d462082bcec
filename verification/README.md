# Verification of the xstockstrat background engine

A Dafny model of the state machines behind the analysis service's background loops and of the realized-P&L
fold shared by trading and portfolio, with proofs over every input, every run and every interleaving.

| files | models |
|---|---|
| `Pnl`, `PnlLotLaws`, `PnlLaws` | average-cost P&L accounting with shorts, flips and a flat-lot tolerance |
| `LiveLimits`, `LiveLimitsLaws`, `LiveLimitsAdmission`, `LiveLimitsDrain` | the resizable concurrency limiter and `run_bounded`, as a transition system of event-loop steps and as the class itself |
| `ConfigWatch`, `ConfigWatchLaws` | the config watcher that resizes the limiter, and runs of both together |
| `LiveTransition`, `LiveTransitionLaws` | the entry/exit transition core, its historical replay, the deny list |
| `LivePair`, `LivePairDecisions`, `LivePairLaws` | the per-key maps of the live loop and one evaluation of a pair |
| `LiveRotation`, `LiveRotationLaws` | the rotating cursor over the fleet |
| `FundClaims`, `FundClaimsLoop`, `FundClaimsLaws` | emission claims: the table, one run's loop, and concurrent runs with crashes and forced deletions |
| `FundDirections`, `FundDirectionsLaws`, `FundRerunLaws` | the cross-sectional quantile mapping, and a later run of the same day |
| `FundPacing`, `FundPacingLaws` | the rotating daily symbol cap and the budgeted fetch |
| `DurableSchedule`, `FundSchedule`, `ScheduleLaws` | the persisted schedule and the interval tick |
| `WallclockSchedule`, `WallclockLaws` | the daily wall-clock tick |
| `EntryBackfill` | entry-time inference from order history |
| `BacktestRetention`, `BacktestRetentionLaws` | insert-then-evict retention of backtest details |

Conventions. `float64` and Python floats are reals, with the P&L tolerance kept as the constant it is. Times are
integers. A SQL table is a map that each statement updates atomically. What an RPC answers, whether a write is
applied, when a process dies and what the clock reads are inputs, so a statement over all inputs covers them. A
class method is one uninterrupted run of its source method; its `ensures` ties the new state to a specification
function, and the laws are proved about that function over whole runs.

`Options`, `Sets` and `Writes` hold what the others share. `dafny verify dfyconfig.toml` checks everything.

## What the proofs found

Seven promises hold only under a condition, which is proved to be exact, and one write has no effect.

- Rotation (`live_loop.py:445-452`) reaches every pair at every budget exactly when no two pairs share a sort key
  (`FairIffKeysDistinct`). `bisect_right` steps over the second of two equal keys, so at a budget of one it is never
  evaluated; two owners' pairs can agree in creation time, strategy id and symbol.
- A wall-clock job is said to be seeded "due at the next anchor hour" (`durable_schedule.py:57-61`). Clock and delay
  are each truncated to milliseconds, so the due time is one millisecond early exactly when both clock readings fall
  strictly inside one millisecond (`WallclockDue`).
- It is also said to fire once per calendar day (`durable_schedule.py:20-23`). A second firing on the day of a completed
  pass can follow exactly when the pass ends on the day it began and leaves a due time on that day (`OncePerDayIff`);
  and that is so exactly when it takes its first reading before that day's anchor without slipping past the day's end,
  or, with the anchor at midnight, when truncation puts the due time just before midnight (`DueSameDayIff`). A pass that a
  restart runs at 07:00 for an anchor of 08:00 fires twice (`EarlyRerunFiresTwice`); an advance taken in the last
  millisecond before the anchor leaves the job due at once (`StillDueIff`).
- A crash between insert and eviction is documented to leave at most one extra row (`backtest_details.py:13-15`).
  Between two evictions the group grows by exactly the new rows stored (`CrashesPileUp`), so at most one row is extra
  exactly when at most one was stored (`OneExtraRowIff`).
- With scores between 0 and 1, a later run of a day gives what it can emit the directions that one run over all the
  day's symbols gives, for every batch and all quantiles, exactly when each earlier score is stored or scored again, or
  the conviction threshold is 1 or more (`RerunAgreesIffNothingLost`). A score is lost when its row was not kept (too
  low, or its claim was released) and its symbol is then deferred, fails or leaves the universe.
- A symbol is emitted at most once a day, absent force, exactly when no failed confirm was followed by an effective
  release, or one was and nothing succeeded since (`AtMostOneEmission`); the number of emissions is exact in every run
  (`EmissionsAreCounted`). A confirm that was applied before it raised permits nothing.
- Entry-time inference and the P&L fold agree on whether a position is open, after every order, exactly when no
  step ends within the fold's tolerance without ending at zero (`AgreeIffClear`).
- The open state that the boot backfill writes before a pair's first evaluation never affects any outcome
  (`BackfilledStateIsIgnored`): replay starts flat and overwrites it. Only the entry anchor counts, although the backfill
  is described as closing the gap that replay cannot reach (`entry_backfill.py:3-4`).

Also exact are when a snapshot can lose a wakeup (`SnapshotLosesNothingIff`) and at which changes a config hook runs
(`HookRunsUnlessEscaped`).

## Model

| member | source | states |
|---|---|---|
| Pnl.TradeLot | packages/proto/pnl/pnl.go:67-91 | the assignments to one lot compute the specified lot and profit |
| Pnl.FoldInto | packages/proto/pnl/pnl.go:63-100 | the loop over the map computes the recursive fold from any baseline |
| PnlLotLaws.GridTradeIsTextbook | packages/proto/pnl/pnl.go:66-96 | for multiples of a tick above the tolerance one fill is textbook average-cost accounting, in lot and profit, and stays on the grid |
| PnlLotLaws.GainIsTextbook | packages/proto/pnl/pnl.go:10-21 | for all quantities the realized profit is the textbook one |
| PnlLotLaws.TextbookCash | packages/proto/pnl/pnl.go:68-91 | cost basis gained minus profit taken is the money spent, and the quantity is the sum |
| PnlLotLaws.TextbookSplit | packages/proto/pnl/pnl.go:66-96 | two parts of a fill at one price and side do what the whole does, also when either part crosses zero |
| PnlLotLaws.TradeDrift | packages/proto/pnl/pnl.go:78-96 | for arbitrary reals one fill mislays at most the tolerance |
| PnlLotLaws.OpposedAverage | packages/proto/pnl/pnl.go:72-96 | after a fill against the position the average is the old one, or the price once the position flipped |
| PnlLotLaws.ReducingKeepsAverage | packages/proto/pnl/pnl.go:78-85 | a purely reducing fill leaves the average cost exactly unchanged |
| PnlLotLaws.TradeMirror | packages/proto/pnl/pnl.go:66-96 | the opposite fill on the opposite lot leaves the opposite lot |
| PnlLotLaws.GainMirror | packages/proto/pnl/pnl.go:10-21 | and realizes the opposite profit |
| PnlLotLaws.TradeKeepsHull | packages/proto/pnl/pnl.go:68-96 | bounds that hold the price and the old average hold the new average |
| PnlLaws.Checkpoint | packages/proto/pnl/pnl.go:48-60 | folding a, then b from its positions, gives the positions of a + b, and the profits add |
| PnlLaws.SymbolsAreIndependent | packages/proto/pnl/pnl.go:66-97 | a symbol's final lot, and whether it is present, depend on its own baseline and fills alone |
| PnlLaws.InterleavingIsIrrelevant | packages/proto/pnl/pnl.go:66-97 | any two sequences with the same order per symbol give the same positions and profit |
| PnlLaws.Mirror | packages/proto/pnl/pnl.go:63-100 | negating baseline and fills negates every lot and the profit |
| PnlLaws.PartialFillsAreInvisible | packages/proto/pnl/pnl.go:66-97 | splitting a fill anywhere in a sequence changes neither positions nor profit |
| PnlLaws.CashConservation | packages/proto/pnl/pnl.go:63-100 | final cost less baseline cost less profit is the notional of all fills |
| PnlLaws.OpenIffNonzero | packages/proto/pnl/pnl.go:92-96 | a symbol is present exactly when its fills do not net to zero, with that quantity |
| PnlLaws.FlatProfit | packages/proto/pnl/pnl.go:45-50 | if everything nets flat no position is left and the profit is minus the notional |
| PnlLaws.ProfitSplits | packages/proto/pnl/pnl.go:66-97 | from any baseline the profit is that of one symbol's own fills plus that of all other fills |
| PnlLaws.FlatSymbolProfit | packages/proto/pnl/pnl.go:66-97 | one symbol that ends flat has realized minus its baseline cost and its own notional, whatever the others do, and a traded one is absent |
| PnlLaws.ProfitIsSum | packages/proto/pnl/pnl.go:63-99 | from any baseline the profit is the sum over the traded symbols of what their own fills realize |
| PnlLaws.QuantityDrift | packages/proto/pnl/pnl.go:78-96 | a symbol's quantity is off its net by at most the tolerance per own fill |
| PnlLaws.AverageCostHull | packages/proto/pnl/pnl.go:68-96 | every bound on a symbol's prices and baseline average bounds its final average; with positive prices quantity and cost have one sign |
| LiveLimits.ResizableLimiter.Wake | services/xstockstrat-analysis/app/config/live_limits.py:42-46 | resolves every pending waiter and nothing else |
| LiveLimits.ResizableLimiter.Release | services/xstockstrat-analysis/app/config/live_limits.py:38-40 | gives the slot back and wakes |
| LiveLimits.ResizableLimiter.Acquire | services/xstockstrat-analysis/app/config/live_limits.py:27-36 | the loop test: suspend on a new future, or take a slot |
| LiveLimits.ResizableLimiter.ResumeAcquire | services/xstockstrat-analysis/app/config/live_limits.py:31-36 | resuming drops the future, then raises the cancellation or tests again |
| LiveLimitsLaws.WakeAllKeeps | services/xstockstrat-analysis/app/config/live_limits.py:42-46 | waking re-establishes that no pending waiter faces a free slot |
| LiveLimitsLaws.AcquireKeeps | services/xstockstrat-analysis/app/config/live_limits.py:27-36 | keeps the invariant, and an admission leaves in_use within the limit read |
| LiveLimitsLaws.RejectedKeeps | services/xstockstrat-analysis/app/config/live_limits.py:59-65 | a refused submission returns its slot and leaves no trace |
| LiveLimitsLaws.ReleaseKeeps | services/xstockstrat-analysis/app/config/live_limits.py:38-40 | keeps the invariant |
| LiveLimitsLaws.DropKeeps | services/xstockstrat-analysis/app/config/live_limits.py:31-35 | leaving the deque on any exit from the wait keeps the invariant |
| LiveLimitsLaws.CancelKeeps | services/xstockstrat-analysis/app/config/live_limits.py:31-36 | cancelling a task, woken or not, keeps the invariant and every holder |
| LiveLimitsLaws.StepKeeps | services/xstockstrat-analysis/app/config/live_limits.py:27-73 | every step of every task or callback keeps: no lost wakeup, no abandoned future, slots taken and released balance |
| LiveLimitsAdmission.SlotsMove | services/xstockstrat-analysis/app/config/live_limits.py:27-73 | a task takes a slot exactly when it runs into the loop test below the limit, and gives one back exactly when it is done |
| LiveLimitsAdmission.AdmittedBelowLimit | services/xstockstrat-analysis/app/config/live_limits.py:28-36 | a step that admits anybody starts below the limit and ends within it |
| LiveLimitsAdmission.InUseGrowth | services/xstockstrat-analysis/app/config/live_limits.py:28-36 | in_use grows by at most one, and never past the limit |
| LiveLimitsAdmission.SuspendsAtLimit | services/xstockstrat-analysis/app/config/live_limits.py:28-32 | at the limit an arrival or an uncancelled resumption changes no slot and waits in the deque on a new pending future |
| LiveLimitsAdmission.GoesOnBelowLimit | services/xstockstrat-analysis/app/config/live_limits.py:36-73 | below the limit it is in its body or its thread at once, or out again when the executor refuses |
| LiveLimitsAdmission.CancelledWaitEnds | services/xstockstrat-analysis/app/config/live_limits.py:31-35 | a cancelled wait ends without a slot and leaves the deque |
| LiveLimitsAdmission.CancelReachesWaiter | services/xstockstrat-analysis/app/config/live_limits.py:31-35 | a cancellation before or after a wakeup makes the wait end that way |
| LiveLimitsAdmission.FuturesSettleOnce | services/xstockstrat-analysis/app/config/live_limits.py:42-46 | a done future stays as it is; a pending one is cancelled by its own task and resolved only by a step that gives a slot back |
| LiveLimitsAdmission.EveryAdmissionBelowLimit | services/xstockstrat-analysis/app/config/live_limits.py:27-73 | in every run of limiter and watcher each admission is below the limit read at that moment |
| LiveLimitsAdmission.EverySeekerWaitsAtLimit | services/xstockstrat-analysis/app/config/live_limits.py:27-73 | and each task that reaches the loop test at the limit is left waiting on a pending future |
| LiveLimitsDrain.ResumeConsumes | services/xstockstrat-analysis/app/config/live_limits.py:27-36 | a resumption ends a wait, or suspends again and wakes nobody |
| LiveLimitsDrain.DrainsToQuiet | services/xstockstrat-analysis/app/config/live_limits.py:27-46 | resumptions cannot go on for ever, and when none is left nobody waits while a slot is free |
| ConfigWatch.WatchCore.OnChange | services/xstockstrat-analysis/app/config/watch_core.py:92-94 | appends the hook |
| ConfigWatch.WatchCore.CallHook | services/xstockstrat-analysis/app/config/watch_core.py:107-111 | one hook call, and whether a BaseException leaves it |
| ConfigWatch.WatchCore.Apply | services/xstockstrat-analysis/app/config/watch_core.py:96-111 | installs the snapshot and, on a new version, calls the hooks in order, past an Exception and up to a BaseException |
| ConfigWatchLaws.SnapshotLosesNothingIff | services/xstockstrat-analysis/app/config/watch_core.py:96-111 | exactly when a received snapshot leaves no pending waiter beside a free slot, however each hook ends |
| ConfigWatchLaws.NoWakeupIsEverLost | services/xstockstrat-analysis/app/config/live_limits.py:27-73 | over every run of limiter and watcher together, as long as no hook registered before wake() raises outside Exception: no lost wakeup, in_use is the number of holders, one future per waiter, slots balance, running threads within in_use |
| ConfigWatchLaws.ThreadsWithinSlots | services/xstockstrat-analysis/app/config/live_limits.py:56-73 | running threads never exceed in_use |
| ConfigWatchLaws.CancelledCallerKeepsItsSlot | services/xstockstrat-analysis/app/config/live_limits.py:67-73 | cancelling the caller of a running thread frees nothing and enables no release |
| ConfigWatchLaws.HookRunsUnlessEscaped | services/xstockstrat-analysis/app/config/watch_core.py:104-111 | a hook is called at exactly the version changes at which no earlier hook raises outside Exception, once each and in order |
| ConfigWatchLaws.HooksFireOncePerChange | services/xstockstrat-analysis/app/config/watch_core.py:104-111 | so once per change while the hooks before it return or raise Exceptions, whatever those after it do |
| ConfigWatchLaws.DeadWatch | services/xstockstrat-analysis/app/config/watch_core.py:139-150 | after a BaseException no hook is called and no change arrives again |
| LiveTransition.ReplayState | services/xstockstrat-analysis/app/engine/live_loop.py:242-272 | the replay loop is the fold of the core, from flat and the known anchors; lists of different lengths raise |
| LiveTransitionLaws.FiresIff | services/xstockstrat-analysis/app/engine/live_loop.py:207-239 | a step fires exactly when the wanted edge is allowed and its cooldown over, and is otherwise a no-op |
| LiveTransitionLaws.RunsAreDisciplined | services/xstockstrat-analysis/app/engine/live_loop.py:207-239 | over any run transitions alternate, every exit and re-entry waits out its cooldown, no denied entry, an anchor while in position |
| LiveTransitionLaws.DeniedRun | services/xstockstrat-analysis/app/engine/live_loop.py:224-238 | with entry denied, evaluation k commits something exactly when the pair was held and k is the first to commit without the denial, and it is the same exit |
| LiveTransitionLaws.ReplayKeepsAnchors | services/xstockstrat-analysis/app/engine/live_loop.py:254-260 | a known anchor never becomes unknown |
| LiveTransitionLaws.RunConcat | services/xstockstrat-analysis/app/engine/live_loop.py:242-272 | replaying a prefix and continuing is one run, in state and in transitions |
| LiveTransitionLaws.ReplayStep | services/xstockstrat-analysis/app/engine/live_loop.py:260-272 | what each bar of a replayed history does, with which cooldown, from the history alone |
| LiveTransitionLaws.UniverseMembers | services/xstockstrat-analysis/app/engine/live_loop.py:112-155 | who is evaluated, and who only for exits, symbol by symbol |
| LiveTransitionLaws.EvaluatedAreDenied | services/xstockstrat-analysis/app/engine/live_loop.py:396-441 | a held denied symbol is evaluated in every cycle that neither skips its strategy nor falls short of the pair, an unheld one in none, always with entry denied |
| LiveTransitionLaws.DeniedSymbols | services/xstockstrat-analysis/app/engine/live_loop.py:396-441 | over any cycles a denied symbol never enters, and evaluation k exits exactly when it would be the first transition without the denial |
| LivePair.LiveEvaluationLoop.Hydrate | services/xstockstrat-analysis/app/engine/live_loop.py:321-336 | loads anchors only, of one key only |
| LivePair.LiveEvaluationLoop.Backfill | services/xstockstrat-analysis/app/engine/entry_backfill.py:101-103 | marks the pair open with its entry time |
| LivePair.LiveEvaluationLoop.Assess | services/xstockstrat-analysis/app/engine/live_loop.py:764-779 | tracks the unavailable keys; other verdicts change nothing |
| LivePair.LiveEvaluationLoop.ReplayHistory | services/xstockstrat-analysis/app/engine/live_loop.py:804-818 | installs the replay of all but the live bar, or raises and changes nothing |
| LivePair.LiveEvaluationLoop.WriteAnchor | services/xstockstrat-analysis/app/engine/live_loop.py:850-858 | the anchor of the transition is written first, of one key only |
| LivePair.LiveEvaluationLoop.FinishTransition | services/xstockstrat-analysis/app/engine/live_loop.py:860-875 | throttle, alert, state, in this order; a failed alert changes nothing |
| LivePair.LiveEvaluationLoop.RecordTransition | services/xstockstrat-analysis/app/engine/live_loop.py:850-875 | the two together, undisturbed |
| LivePair.LiveEvaluationLoop.EvalLiveBar | services/xstockstrat-analysis/app/engine/live_loop.py:820-875 | one live bar on a replayed key |
| LivePair.LiveEvaluationLoop.EvalPair | services/xstockstrat-analysis/app/engine/live_loop.py:720-875 | one evaluation of one key meets the specification and leaves every other key alone |
| LivePairLaws.StaleAnchorsDoNotMatter | services/xstockstrat-analysis/app/engine/live_loop.py:207-239 | the core reads only the exit anchor while flat and only the entry anchor while in position |
| LivePairDecisions.CarriesIff | services/xstockstrat-analysis/app/engine/live_loop.py:789-830 | an evaluation carries Entry or Exit exactly when the last decision asks for it, it is not denied, and the matching cooldown is over at the last bar |
| LivePairDecisions.TransitionTakesEffect | services/xstockstrat-analysis/app/engine/live_loop.py:850-875 | anchors, state and alert time after a transition, throttled, failed or sent |
| LivePairDecisions.SteadyChangesNothing | services/xstockstrat-analysis/app/engine/live_loop.py:832-848 | a steady evaluation changes nothing, and logs an open pair without an anchor |
| LivePairDecisions.AvailabilityIsTracked | services/xstockstrat-analysis/app/engine/live_loop.py:764-779 | the unavailable mark follows the verdict of every evaluation that has bars |
| LivePairDecisions.NoDecisionNoChange | services/xstockstrat-analysis/app/engine/live_loop.py:783-787 | without decisions nothing else changes |
| LivePairDecisions.FirstEvaluation | services/xstockstrat-analysis/app/engine/live_loop.py:804-818 | the first evaluation is that of the pair as the replay of all bars but the last leaves it |
| LivePairDecisions.DeniedNeverEnters | services/xstockstrat-analysis/app/engine/live_loop.py:764-765 | neither a denial nor missing fundamentals ever lets a pair enter |
| LivePairDecisions.DeniedRunNeverEnters | services/xstockstrat-analysis/app/engine/live_loop.py:764-830 | nor in any run |
| LivePairDecisions.CommittedEntriesAreAllowed | services/xstockstrat-analysis/app/engine/live_loop.py:764-875 | every committed transition is committed by one evaluation at its last bar, and no entry by a denied one |
| LivePairLaws.EvaluationSimulates | services/xstockstrat-analysis/app/engine/live_loop.py:804-875 | one evaluation is a step of the core, or a stuttering step when it fails; throttled transitions advance |
| LivePairLaws.ClassRunIsCoreRun | services/xstockstrat-analysis/app/engine/live_loop.py:804-875 | every run of evaluations of a replayed key is a run of the core on the committed inputs, with the same transitions |
| LivePairLaws.HappeningSimulates | services/xstockstrat-analysis/app/engine/live_loop.py:804-875 | an evaluation, a backfill, or an evaluation that a backfill disturbs is its core steps |
| LivePairLaws.BackfilledRunIsCoreRun | services/xstockstrat-analysis/app/engine/live_loop.py:804-875 | with backfills at any points, also during awaits, every run is a core run with one jump to open for each backfill that a committed exit does not swallow |
| LivePairLaws.FreshRunIsReplayThenCore | services/xstockstrat-analysis/app/engine/live_loop.py:804-875 | after a restart the run is the replay continued by the committed inputs, and is disciplined |
| LivePairLaws.FailedAlertIsRetried | services/xstockstrat-analysis/app/engine/live_loop.py:850-875 | the next evaluation of the same bar commits the transition whose alert failed |
| LivePairLaws.BackfillDuringEvaluation | services/xstockstrat-analysis/app/engine/live_loop.py:850-875 | a backfill that writes while the evaluation awaits changes no outcome; the state is as if it came after, or a committed exit that the core simulates |
| LivePairLaws.BackfilledStateIsIgnored | services/xstockstrat-analysis/app/engine/live_loop.py:804-830 | over any run, the open flag written before the first evaluation changes no outcome |
| LivePairLaws.BackfilledStateIsLost | services/xstockstrat-analysis/app/engine/live_loop.py:804-818 | a backfilled open pair is flat after its first evaluation when its history holds no entry |
| LiveRotation.Rotation.RunCycle | services/xstockstrat-analysis/app/engine/live_loop.py:442-496 | the evaluated indices and the cursor of one cycle, errors contained per pair |
| LiveRotationLaws.StartAfter | services/xstockstrat-analysis/app/engine/live_loop.py:450-452 | bisect and wrap resume just after the pair evaluated last |
| LiveRotationLaws.CycleShape | services/xstockstrat-analysis/app/engine/live_loop.py:442-496 | how many pairs a cycle evaluates, and that the cursor ends at the last of them, or stays where it was when there is none |
| LiveRotationLaws.CyclesWalk | services/xstockstrat-analysis/app/engine/live_loop.py:447-496 | consecutive cycles, whatever their budgets, are one uninterrupted walk round the fleet |
| LiveRotationLaws.RotationIsFair | services/xstockstrat-analysis/app/engine/live_loop.py:445-496 | evaluation counts never differ by more than one; a full round reaches everybody |
| LiveRotationLaws.EveryPairWithin | services/xstockstrat-analysis/app/engine/live_loop.py:445-496 | every pair within any ceil(L/B) consecutive cycles, never twice in one |
| LiveRotationLaws.EqualKeysStarve | services/xstockstrat-analysis/app/engine/live_loop.py:450-452 | at a budget of one the second of two equal keys is never evaluated |
| LiveRotationLaws.FairIffKeysDistinct | services/xstockstrat-analysis/app/engine/live_loop.py:445-496 | the rotation reaches every pair at every budget exactly when the keys are distinct |
| LiveRotationLaws.RankIsDistance | services/xstockstrat-analysis/app/engine/live_loop.py:450-482 | the keys in line before a pair count the pairs the walk passes first |
| LiveRotationLaws.CycleAdvances | services/xstockstrat-analysis/app/engine/live_loop.py:450-496 | a cycle that misses a pair moves it up by exactly the budget |
| LiveRotationLaws.FleetChange | services/xstockstrat-analysis/app/engine/live_loop.py:445-452 | only insertions move a pair back, also when the cursor's own pair is deleted |
| LiveRotationLaws.ReachedDespiteChanges | services/xstockstrat-analysis/app/engine/live_loop.py:445-496 | a pair present throughout is reached within ceil((L+I)/B) cycles of a changing fleet |
| FundClaims.EmittedTable.TakeClaim | services/xstockstrat-analysis/app/engine/fundsignal_loop.py:297-310 | inserts a claim unless the key has a row, and says which |
| FundClaims.EmittedTable.Confirm | services/xstockstrat-analysis/app/engine/fundsignal_loop.py:324-333 | records the signal on the run's own open claim only |
| FundClaims.EmittedTable.Release | services/xstockstrat-analysis/app/engine/fundsignal_loop.py:476-487 | deletes the run's own open claim only |
| FundClaims.EmittedTable.TryTakeClaim | services/xstockstrat-analysis/app/engine/fundsignal_loop.py:297-310 | the INSERT for every fate of the write |
| FundClaims.EmittedTable.EmitOne | services/xstockstrat-analysis/app/engine/fundsignal_loop.py:292-342 | what one symbol leaves and answers, spelled out for every answer of ingest and every fate of the claim, confirm and release writes |
| FundClaims.EmittedTable.EmitAll | services/xstockstrat-analysis/app/engine/fundsignal_loop.py:292-348 | an undisturbed run adds exactly the row each candidate leaves, up to the first rejection or raising write, and counts right |
| FundClaims.TracesAre | services/xstockstrat-analysis/app/engine/fundsignal_loop.py:292-342 | those rows candidate by candidate: the confirmed one, the bare claim, or none |
| FundClaims.TracesMean | services/xstockstrat-analysis/app/engine/fundsignal_loop.py:292-342 | the same from the answers and the writes: in particular an accepted and confirmed candidate leaves its signal |
| FundClaims.NextRunSkips | services/xstockstrat-analysis/app/engine/fundsignal_loop.py:297-310 | what a run emitted and confirmed, a later run over the table does not attempt |
| FundClaims.NoOpenClaim | services/xstockstrat-analysis/app/engine/fundsignal_loop.py:297-342 | no open claim is left unless a release write failed or an INSERT was applied and then raised |
| FundClaimsLoop.SymbolRun | services/xstockstrat-analysis/app/engine/fundsignal_loop.py:292-342 | what a run does for one symbol is a run of protocol events to the row the loop leaves |
| FundClaimsLoop.LoopIsProtocol | services/xstockstrat-analysis/app/engine/fundsignal_loop.py:292-342 | so is the whole loop |
| FundClaimsLoop.EmitAllIsProtocol | services/xstockstrat-analysis/app/engine/fundsignal_loop.py:292-342 | the table that the loop method leaves is the one the protocol events leave |
| FundClaimsLoop.ForceDeletesItsDay | services/xstockstrat-analysis/app/engine/fundsignal_loop.py:258-263 | a forced deletion removes exactly the rows of its source and day |
| FundClaimsLaws.StepKeeps | services/xstockstrat-analysis/app/engine/fundsignal_loop.py:256-342 | every event of any run, crash or forced deletion keeps the bookkeeping of claims, rows and signals |
| FundClaimsLaws.EmissionsAreCounted | services/xstockstrat-analysis/app/engine/fundsignal_loop.py:256-342 | over every interleaving the exact number of successes per symbol, source and day: lost confirms that were released, successes that force deleted, and the current claim if it succeeded |
| FundClaimsLaws.AtMostOneEmission | services/xstockstrat-analysis/app/engine/fundsignal_loop.py:256-342 | without force, at most one success exactly when none was lost, or one was and nothing succeeded since |
| FundClaimsLaws.LostConfirmEmitsAgain | services/xstockstrat-analysis/app/engine/fundsignal_loop.py:323-342 | a lost confirm followed by its release does lead to another emission |
| FundClaimsLaws.RunsAreFenced | services/xstockstrat-analysis/app/engine/fundsignal_loop.py:323-342 | a run never changes a row recorded for another run, also after its own claim was deleted |
| FundClaimsLaws.SettledRowBlocks | services/xstockstrat-analysis/app/engine/fundsignal_loop.py:297-342 | a recorded signal, or a claim left by a crash, stays until forced out, and meanwhile only a run that force had dispossessed can emit its key |
| FundDirections.MapDirections | services/xstockstrat-analysis/app/engine/fundsignal_loop.py:595-612 | every scored symbol gets the direction its cuts give |
| FundDirections.QuantileIndexInRange | services/xstockstrat-analysis/app/engine/fundsignal_loop.py:797-806 | the index is in range, and is the half-even nearest rank for quantiles in [0, 1] |
| FundDirectionsLaws.RankIsNearest | services/xstockstrat-analysis/app/engine/fundsignal_loop.py:805-805 | the rank is an integer nearest to quantile times n - 1, the even one of two |
| FundDirectionsLaws.QuantileIs | services/xstockstrat-analysis/app/engine/fundsignal_loop.py:797-806 | the entry at that rank, the ends outside (0, 1), 0 of an empty list |
| FundDirectionsLaws.SortKeeps | services/xstockstrat-analysis/app/engine/fundsignal_loop.py:601-601 | the ordering is an ascending permutation |
| FundDirectionsLaws.SplitRunsAgree | services/xstockstrat-analysis/app/engine/fundsignal_loop.py:595-612 | mapping later symbols against the earlier scores is the one-shot mapping restricted to them |
| FundRerunLaws.NothingLostAgrees | services/xstockstrat-analysis/app/engine/fundsignal_loop.py:266-284 | when each earlier symbol is stored or scored again, a later run maps its symbols as one run over all would |
| FundRerunLaws.ThresholdAtTopAgrees | services/xstockstrat-analysis/app/engine/fundsignal_loop.py:266-295 | with a threshold of 1 or more only a score of 1 is emitted, and both runs buy it |
| FundRerunLaws.SecondTierBought | services/xstockstrat-analysis/app/engine/fundsignal_loop.py:595-612 | a score on top of all but the scores of 1 is bought exactly when the buy rank lies below those |
| FundRerunLaws.LostScoreShiftsCut | services/xstockstrat-analysis/app/engine/fundsignal_loop.py:266-295 | below a threshold of 1 a lost score always has a batch of scores between 0 and 1, rescored as before or emittable, and a quantile at which an emittable direction differs |
| FundRerunLaws.RerunAgreesIffNothingLost | services/xstockstrat-analysis/app/engine/fundsignal_loop.py:266-295 | on what can be emitted the runs agree for all batches and quantiles exactly when nothing is lost or the threshold is 1 or more |
| FundDirectionsLaws.DirectionsAreMonotone | services/xstockstrat-analysis/app/engine/fundsignal_loop.py:605-611 | a higher score never gets a weaker direction |
| FundDirectionsLaws.Proportions | services/xstockstrat-analysis/app/engine/fundsignal_loop.py:595-612 | with distinct scores exactly n - b buys, and s + 1 sells (or b when the sell rank is not below) |
| FundPacing.PacedFetch | services/xstockstrat-analysis/app/engine/fundsignal_loop.py:489-518 | the loop computes the chunk-by-chunk specification |
| FundPacingLaws.CapSize | services/xstockstrat-analysis/app/engine/fundsignal_loop.py:425-430 | for every provider and cap the universe is left as it is, in order, unless the cap applies and bites, and then has as many symbols as allowed, all its own |
| FundPacingLaws.UncappedKeepsAll | services/xstockstrat-analysis/app/engine/fundsignal_loop.py:425-427 | every symbol stays whenever another provider is active or the universe fits |
| FundPacingLaws.CapKeeps | services/xstockstrat-analysis/app/engine/fundsignal_loop.py:428-430 | when it bites the cap keeps exactly the symbols whose rotated place is below it |
| FundPacingLaws.CapIsFair | services/xstockstrat-analysis/app/engine/fundsignal_loop.py:416-438 | of any N consecutive days a symbol is kept on exactly M, and never dropped more than N - M in a row |
| FundPacingLaws.PacedCalls | services/xstockstrat-analysis/app/engine/fundsignal_loop.py:500-517 | exactly min(budget, ceil(n/chunk)) calls |
| FundPacingLaws.PacedPartition | services/xstockstrat-analysis/app/engine/fundsignal_loop.py:500-518 | sent, failed and deferred symbols are the input, each once |
| FundPacingLaws.PacedSuffix | services/xstockstrat-analysis/app/engine/fundsignal_loop.py:500-517 | what is deferred is a suffix, and only when the budget is spent |
| FundPacingLaws.PacedOutcome | services/xstockstrat-analysis/app/engine/fundsignal_loop.py:503-515 | a symbol failed exactly when a requested chunk holding it raised, and was fetched exactly when a requested chunk answered with it |
| DurableSchedule.UntilHour | services/xstockstrat-analysis/app/engine/durable_schedule.py:20-29 | the delay is positive and at most a day |
| DurableSchedule.JobSchedule.Seed | services/xstockstrat-analysis/app/engine/durable_schedule.py:57-73 | writes the first due time and never touches an existing row |
| DurableSchedule.JobSchedule.NextSleep | services/xstockstrat-analysis/app/engine/durable_schedule.py:75-89 | zero exactly when due, otherwise the time left |
| DurableSchedule.JobSchedule.Advance | services/xstockstrat-analysis/app/engine/durable_schedule.py:91-103 | moves an existing row and cannot create one |
| ScheduleLaws.FirstSeed | services/xstockstrat-analysis/app/engine/durable_schedule.py:57-73 | a first interval seed and a missing row are due at once, a wall-clock seed at the anchor within the truncation |
| FundSchedule.FundamentalsSignalLoop.RunTick | services/xstockstrat-analysis/app/engine/fundsignal_loop.py:134-171 | the row and the sleep after every kind of tick: not due, disabled, locked, success, failure, failed writes, death |
| ScheduleLaws.StartsExactlyWhen | services/xstockstrat-analysis/app/engine/fundsignal_loop.py:137-155 | a run starts exactly when the row is due, the producer enabled and the lock free; any other tick leaves the row |
| ScheduleLaws.DueAgain | services/xstockstrat-analysis/app/engine/fundsignal_loop.py:155-170 | when exactly the job is due again after a success and after a failure, in the configured units |
| ScheduleLaws.NextAnchor | services/xstockstrat-analysis/app/engine/durable_schedule.py:20-29 | the delay leads to the least strictly later instant at the hour |
| ScheduleLaws.WallclockDue | services/xstockstrat-analysis/app/engine/durable_schedule.py:57-73 | how far a wall-clock due time lies from the anchor, and exactly when it is early |
| ScheduleLaws.StillDueIff | services/xstockstrat-analysis/app/engine/durable_schedule.py:91-103 | exactly when a wall-clock advance leaves the job due at once |
| WallclockSchedule.OpportunityRefresh.RunTick | services/xstockstrat-analysis/app/handlers/servicer.py:6036-6070 | the row and the sleep after a tick that is not due, completes, retries or dies |
| WallclockLaws.RetryDue | services/xstockstrat-analysis/app/handlers/servicer.py:6049-6055 | a failed enumeration makes the job due again after exactly the retry |
| WallclockLaws.DueSameDayIff | services/xstockstrat-analysis/app/engine/durable_schedule.py:20-29 | exactly when a wall-clock advance leaves a due time on the calendar day of its first reading |
| WallclockLaws.NoStartBeforeDue | services/xstockstrat-analysis/app/handlers/servicer.py:6036-6070 | through any deaths, retries and idle ticks nothing starts before the due time of an earlier completed pass |
| WallclockLaws.SecondStartIff | services/xstockstrat-analysis/app/handlers/servicer.py:6036-6070 | exactly when a second start on the same day is possible |
| WallclockLaws.OncePerDay | services/xstockstrat-analysis/app/handlers/servicer.py:6036-6070 | in every run, passes that leave no due time on their own day fire on strictly later days |
| WallclockLaws.OncePerDayIff | services/xstockstrat-analysis/app/engine/durable_schedule.py:20-29 | a second firing on the same calendar day can follow a run exactly when its last pass leaves a due time on its own day |
| WallclockLaws.EarlyRerunFiresTwice | services/xstockstrat-analysis/app/engine/durable_schedule.py:20-29 | an instance: a pass at 07:00 for an anchor of 08:00 |
| ScheduleLaws.DueMovesOnlyAfterACycle | services/xstockstrat-analysis/app/engine/durable_schedule.py:91-95 | an existing row changes only when a cycle finishes, and never disappears |
| ScheduleLaws.CrashKeepsRow | services/xstockstrat-analysis/app/engine/fundsignal_loop.py:154-170 | a cycle that dies, or whose writes all fail, leaves the due time as it was |
| ScheduleLaws.DueUntilACycleFinishes | services/xstockstrat-analysis/app/engine/fundsignal_loop.py:112-132 | from then on the job stays due through restarts, seeds and further deaths until a cycle finishes |
| ScheduleLaws.CrashSafeCadence | services/xstockstrat-analysis/app/engine/fundsignal_loop.py:134-171 | over any seeds, ticks, crashes and restarts a run starts no sooner than the interval after every earlier success whose advance stands, acknowledged or not |
| EntryBackfill.InferOpenEntryTime | services/xstockstrat-analysis/app/engine/entry_backfill.py:29-49 | None exactly when as much was bought as sold; otherwise the time of the order after the last zero-balance prefix |
| EntryBackfill.BalanceBySide | services/xstockstrat-analysis/app/engine/entry_backfill.py:42-44 | the balance is what was bought less what was sold |
| EntryBackfill.SidesMoveTheLot | services/xstockstrat-analysis/app/engine/entry_backfill.py:42-44 | a buy raises and any other order lowers the quantity the fold holds, by what was filled |
| EntryBackfill.SortPermutes | services/xstockstrat-analysis/app/engine/entry_backfill.py:36-36 | the sort is a permutation in time order |
| EntryBackfill.SortIsStable | services/xstockstrat-analysis/app/engine/entry_backfill.py:36-36 | orders of equal time keep the caller's order, and the net quantity is unchanged |
| EntryBackfill.OneOpener | services/xstockstrat-analysis/app/engine/entry_backfill.py:39-49 | the opening order is unique and a real fill |
| EntryBackfill.LotIffBalance | packages/proto/pnl/pnl.go:45-50 | on the grid the P&L fold holds a lot exactly when the balance is not zero, of that size |
| EntryBackfill.StoredQuantity | packages/proto/pnl/pnl.go:72-96 | the quantity kept after one fill of any size on any lot |
| EntryBackfill.ClearHolds | packages/proto/pnl/pnl.go:63-100 | after clear steps the fold holds exactly the balance |
| EntryBackfill.AgreeIffClear | services/xstockstrat-analysis/app/engine/entry_backfill.py:39-49 | inference and fold agree after every prefix exactly when every step is clear |
| EntryBackfill.GridIsClear | packages/proto/pnl/pnl.go:42-43 | quantities on a grid of ticks above the tolerance are clear |
| EntryBackfill.FoldOpensThere | packages/proto/pnl/pnl.go:63-100 | after clear steps the fold has no lot before the inferred opener and one after every later order |
| EntryBackfill.DustDisagrees | services/xstockstrat-analysis/app/engine/entry_backfill.py:43-49 | an instance of a step that is not clear: a fill below the tolerance has an entry time but opens no lot |
| BacktestRetention.BacktestDetails.Insert | services/xstockstrat-analysis/app/repositories/backtest_details.py:24-62 | stores the row unless its id exists, then, if it gets there, evicts all but the newest of its group, ties any way |
| BacktestRetention.NewestExist | services/xstockstrat-analysis/app/repositories/backtest_details.py:53-58 | the subselect always has an answer |
| BacktestRetentionLaws.FirstRowWins | services/xstockstrat-analysis/app/repositories/backtest_details.py:35-47 | an INSERT of an id that exists changes nothing, any other adds its row |
| BacktestRetentionLaws.EvictsItsGroup | services/xstockstrat-analysis/app/repositories/backtest_details.py:48-62 | an eviction deletes exactly the rows of its owner and strategy that were not kept |
| BacktestRetentionLaws.NothingNewIsLost | services/xstockstrat-analysis/app/repositories/backtest_details.py:34-62 | over any interleaving of statements with any crashes, a stored row is there or k rows no older are |
| BacktestRetentionLaws.HoldsNewest | services/xstockstrat-analysis/app/repositories/backtest_details.py:47-62 | with distinct times the k newest ever stored are there |
| BacktestRetentionLaws.ExactAfterEviction | services/xstockstrat-analysis/app/repositories/backtest_details.py:47-62 | right after an eviction to k, exactly those |
| BacktestRetentionLaws.RetentionHolds | services/xstockstrat-analysis/app/repositories/backtest_details.py:24-62 | both, over every run from the empty table |
| BacktestRetentionLaws.OtherRowsStay | services/xstockstrat-analysis/app/repositories/backtest_details.py:47-62 | other groups are untouched, and a row without an owner is never evicted |
| BacktestRetentionLaws.CrashesPileUp | services/xstockstrat-analysis/app/repositories/backtest_details.py:13-15 | while no eviction of a group runs it grows by exactly the new rows stored for it, among any other statements |
| BacktestRetentionLaws.OneExtraRowIff | services/xstockstrat-analysis/app/repositories/backtest_details.py:13-15 | after an eviction at most one row is extra exactly when at most one new row was stored since |

## Left out

- Float rounding: all arithmetic is over reals, so the tolerance is the only inexactness that is modelled.
- gRPC, SQL drivers, telemetry, logging, identity, encryption and process startup; their results are inputs.
- Symbol normalisation and upper-casing (`_normalize_symbol`, `_dedup`): symbols are taken as normalised and, for the cap, distinct.
- The evaluator, the scoring formulas (`_lin`, `_builtin_score`, `_score`) and fundamentals availability: decisions, scores and verdicts are inputs.
- The reconnect backoff of `_watch` and the coverage log: one bounded variable each, no interaction with the hooks.
- The other wall-clock tick of the servicer (readiness): its schedule calls are those of the modelled one. What a pass computes for each user is not modelled.
- WallclockSchedule.OpportunityRefresh.RunTick: an UPDATE that is not applied counts as a pass that died, one that is applied and raises as completed.
- Delivery inside ingest: a success is what IngestSignal returned; ingest's own deduplication is not part of this model.
- LiveLimitsLaws.StepKeeps: promises no first-in-first-out order, because woken waiters race; and the loop is open throughout (a closed loop skips the release of `run_bounded`).
- LiveLimits.ResizableLimiter.Acquire: a task cancelled inside its body is just a task that leaves its body; cancellation of the executor's own future is not modelled.
- LivePair.LiveEvaluationLoop.EvalPair: undisturbed; a boot backfill that writes before the state is read is one that runs before the evaluation, and one that writes at a later await is `BackfillDuringEvaluation`.
- LivePair.LiveEvaluationLoop.RecordTransition: the durable cooldown rows and the ledger event are best-effort writes whose failures are swallowed, so they are not state of the model.
- LiveTransitionLaws.DeniedSymbols: whether the rotation reaches the pair in a cycle is an input; when it must is `ReachedDespiteChanges`.
- LiveRotationLaws.FairIffKeysDistinct: exact over all budgets together; at one given budget above one, tied keys may still be served.
- LiveRotation.Rotation.RunCycle: a sort key is its rank in the lexicographic order, an integer; any finite run has such ranks.
- LivePairLaws.BackfilledStateIsLost: an instance; the statement for every history is `BackfilledStateIsIgnored`.
- EntryBackfill.DustDisagrees: an instance; the exact condition is `AgreeIffClear`.
- FundClaims.EmittedTable.EmitAll: undisturbed by other runs; what holds under interference is `EmissionsAreCounted` and `RunsAreFenced`. A run that ends early in the code may go on in the protocol, which only adds behaviours.
- FundPacing.PacedFetch: of each answer only which symbols came back is kept; max_symbols and the chunk size are not negative.
- FundDirections.MapDirections: a scores dict is the sequence of its items.
- ScheduleLaws.CrashSafeCadence: one scheduler process at a time, as deployed; two overlapping processes are not covered.
- BacktestRetention.BacktestDetails.Insert: the payload bytes are not modelled, and an id that is stored again carries the same row, as fresh run ids guarantee.
