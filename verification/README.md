# TaoWidget historical-balance core, modelled in Dafny

TaoWidget serves the history of a coldkey's free balance and root stake on
the Bittensor chain. Two pieces of logic sit inside its async plumbing, and
this project models both as pure functions and proves properties about them.

- **Block sampling** (`app/routers.py`). A request for `days` of history
  samples one block per day, `BLOCKS_PER_DAY = 7200` blocks apart, going back
  from the current block. It queries every sampled block concurrently and
  gathers the answers in block order. Each answer becomes a `HistoricalData`
  record that carries the block number, a day offset and the amount. For
  stake, the amount is the sum of the entries on the root subnet
  (`netuid == 0`).
- **Connection manager** (`app/subtensor_manager.py`). It holds at most one
  connection. It creates the connection on first use and reuses it after
  that. An `Exception` makes it close the old connection and create a new
  one. `close()` forgets the connection. Each request gets a fresh manager,
  and the manager is closed when the request ends.

Modules:

- `Outcomes` (`outcomes.dfy`): the exception classes the manager tells apart,
  and the `Completion` and `Result` types for calls that may raise.
- `BlockSchedule` (`block_schedule.dfy`): Python's descending `range`, the
  sampling schedule, Python's floor division and the day offset.
- `Stake` (`stake.dfy`): the root-subnet stake sum. Its partner is a filter
  followed by a plain sum.
- `SubtensorManager` (`subtensor_manager.dfy`): the manager as an immutable
  state. The state is the network name, an optional stored connection and an
  event log of every create and close call.
  - The outcome of each remote call comes from an environment `Env`, indexed
    by the position the call takes in the log. This makes creation and close
    outcomes arbitrary inputs.
  - A connection is named by the log position of the create call that made
    it.
  - `Enter` and `Exit` follow `__aenter__` and `__aexit__` of the
    `asynccontextmanager`. They track the yield at which the generator is
    suspended.
- `Routers` (`routers.dfy`): `asyncio.gather`, the per-block tasks, the two
  handlers and a whole request.
  - Chain queries are a function from block height to `Result<Reply<T>>`. A
    reply holds the value read at that block and the current block height
    read again afterwards.

Behaviour of the code that the model keeps:

- The generator has three `yield`s: one in the `try` block and one in each
  `except` clause. The two handler yields behave alike. One of them is
  reached when the first creation raised and the retry succeeded. Neither is
  guarded, so an exception thrown in at a handler yield causes no close and
  no re-creation (`Exit`, `entered.retried`).
- `except Exception` does not catch a `BaseException` that is not an
  `Exception`, such as `asyncio.CancelledError` (`Cancelled`). That error
  passes through without any recovery.
- After an `Exception` in the scope, the handler closes the old connection
  but does not clear the reference. If the re-creation then fails, the closed
  connection stays stored, and the `close()` at the end of the request closes
  it a second time (`StaleConnectionClosedTwice`).
- If the re-creation succeeds, the generator yields a second time, so
  contextlib raises `RuntimeError` (`GeneratorDidNotStop`). The caller sees an
  error in every case.
- Both handlers call `asyncio.gather` without `return_exceptions`, so one
  failing block query fails the whole request. No sample is dropped and no
  sample is skipped.
- The replacement connection is created in `__aexit__` of the scope that
  failed, not at the next acquisition.
- Each task subtracts its day offset from `datetime.now()`. An offset that
  puts the date before 1 January of year 1 or after 31 December 9999 raises
  `OverflowError`, which fails that task and, through `gather`, the request.
  The model keeps this error path. The wall clock is reduced to a `Clock`:
  how many calendar days lie between today and each end of `datetime`'s
  range. One `Clock` stands for every task's own `datetime.now()` call.

## Model

| member | source | states |
|---|---|---|
| BlockSchedule.RangeDown | app/routers.py:36 | `range(start, stop, -step)`: element i is `start - i*step`, every element is above `stop`, and the next step would not be, so the length is fixed by the stop bound |
| BlockSchedule.Schedule | app/routers.py:32-36 | the sampled heights: exactly `days` of them for `days >= 1` and none otherwise; height i is `current - i*7200`; every height lies in `(current - days*7200, current]`, with no clamping at zero |
| BlockSchedule.ScheduleShape | app/routers.py:36 | the first height is the current block; heights strictly descend; consecutive heights differ by exactly `BLOCKS_PER_DAY` |
| BlockSchedule.FloorDiv | app/routers.py:16 | Python `//` by a positive divisor is the floor: `q*d <= a < q*d + d`, negative dividends included |
| BlockSchedule.FloorDivUnique | app/routers.py:16 | with the day length as divisor, that bracket fixes the quotient: any `q` with `q*7200 <= a < q*7200 + 7200` is `a // 7200` |
| BlockSchedule.DayOffset | app/routers.py:16 | the day offset `(current - block) // 7200` is the whole number of days in the gap, rounded down |
| BlockSchedule.SampleOffset | app/routers.py:16-22 | with the chain `k` blocks further on when a task re-reads the current block, sample i has offset `i + k // 7200`, which is exactly `i` when `0 <= k < 7200` |
| Stake.RootStake | app/routers.py:23 | the per-block stake is 0 when no entry is on the root subnet (in particular for an empty list) and is non-negative when every amount is |
| Stake.RootStakeIsSumOfRoots | app/routers.py:23 | the stake value equals the plain sum over just the `netuid == 0` entries: non-root entries contribute nothing |
| Stake.RootStakeAppend | app/routers.py:23 | the stake sum is additive over any split of the entry list |
| Stake.RootStakeAtMostTotal | app/routers.py:23 | with non-negative amounts, the root stake lies between 0 and the total stake over all subnets |
| Routers.Gather | app/routers.py:42 | `gather` succeeds exactly when every task succeeds, returning all results in task order; otherwise it raises the error of some failed task |
| Routers.AtBlock | app/routers.py:14-23 | a per-block task fails exactly when its chain query fails (with that error) or its timestamp leaves `datetime`'s range (`OverflowError`); otherwise it returns its block, the day offset against the re-read current block and the measured amount |
| Routers.SampleBlocks | app/routers.py:39-48 | one record per height in the same order, with `block_number` equal to that height, or failure exactly when some height's task failed, raising that task's error |
| Routers.History | app/routers.py:32-48 | a failed current-block read fails the handler; otherwise it succeeds exactly when every scheduled block's query succeeds and its timestamp is representable, giving one record per scheduled height with that height, its day offset and its amount |
| Routers.HistoricalBalance | app/routers.py:26-48 | the balance endpoint succeeds exactly when every sampled block's task does; its records carry the sampled heights in order and the balance read at each |
| Routers.HistoricalStake | app/routers.py:51-73 | the stake endpoint succeeds exactly when every sampled block's task does; its records carry the sampled heights in order and the root stake at each |
| Routers.Serve | app/routers.py:30-35 | a whole request returns the records exactly when acquisition succeeds and the handler body succeeds; the manager always ends holding nothing |
| Routers.RecordsFollowSchedule | app/routers.py:36-48 | successful output has `max(days, 0)` records: the first is at the current block, and block numbers strictly descend, 7200 apart, inside the look-back window |
| Routers.RecordOffsets | app/routers.py:16-22 | when every task sees the chain `advance` blocks further on, record i has day offset `i + advance // 7200`, which is `i` for less than a day of advance |
| Routers.OneFailureFailsAll | app/routers.py:42 | if the query at any single scheduled block fails, the whole history fails (all-or-nothing) |
| Routers.RecentHistorySucceeds | app/routers.py:14-22 | with every query succeeding and each task re-reading a head between the scheduling block and `advance` blocks past it, the history succeeds whenever the look-back plus `advance // 7200` whole days of chain advance fits both the days since 1 January of year 1 and `timedelta`'s day limit |
| Routers.FarHistoryOverflows | app/routers.py:16-22 | a look-back longer than the days since 1 January of year 1 makes the history fail with `OverflowError` even when every query succeeds, however far the chain advanced before each task re-read its head |
| Routers.OneDayAtMillion | app/routers.py:32-36 | `days = 1` at block 1,000,000 samples exactly block 1,000,000 |
| SubtensorManager.NewManager | app/subtensor_manager.py:9-11 | a fresh manager holds no connection and has made no call; the network defaults to "archive" when the variable is unset |
| SubtensorManager.CreateConnection | app/subtensor_manager.py:13-16 | one create call is logged; it yields a new connection exactly when it succeeds, and the stored reference is untouched |
| SubtensorManager.CloseConnection | app/subtensor_manager.py:28-31 | closing logs exactly one close call on that connection and changes nothing else |
| SubtensorManager.Recover | app/subtensor_manager.py:27-32 | the handler closes the stored connection if there is one, then makes one create call; it stores the new connection only on success and otherwise keeps the old reference |
| SubtensorManager.Enter | app/subtensor_manager.py:21-42 | acquiring reuses a stored connection unchanged; otherwise it stores what it hands out; it makes no close call and at most one create call, or two when it came from the retry |
| SubtensorManager.Exit | app/subtensor_manager.py:24-42 | leaving the scope is normal exactly when the body was; an error at a handler yield, or one that is not an `Exception`, leaves the manager untouched; otherwise at most one close call, made first, and at most one create call, none after a retried acquisition; a normal exit leaves the manager unchanged, and after recovery the new connection is stored exactly when its create call succeeded, the old reference being kept otherwise |
| SubtensorManager.Scope | app/subtensor_manager.py:19-42 | a failed acquisition surfaces its error with nothing run; a normal body after a successful acquisition completes normally with the acquired state kept; a raising body always leaves the caller with an error |
| SubtensorManager.CloseManager | app/subtensor_manager.py:44-51 | `close()` leaves no connection stored; on an empty manager it changes nothing; otherwise it logs exactly one close of the stored connection |
| SubtensorManager.Request | app/subtensor_manager.py:54-59 | at the end of a request nothing is stored, and the request completes normally exactly when the body did and the fresh acquisition succeeded |
| SubtensorManager.AcquireReusesStored | app/subtensor_manager.py:22-24 | with a connection stored, acquiring yields it and makes no create call |
| SubtensorManager.AcquireCreatesWhenEmpty | app/subtensor_manager.py:22-24 | with nothing stored and creation succeeding, acquiring makes exactly one create call, then stores and yields the result |
| SubtensorManager.FirstCreationRetriedOnce | app/subtensor_manager.py:21-42 | if the first creation raises an `Exception`, no close is attempted, creation is retried exactly once, and a second failure reaches the caller with nothing stored |
| SubtensorManager.CancelledCreationNotRetried | app/subtensor_manager.py:34 | a creation failure that is not an `Exception` propagates with no retry |
| SubtensorManager.EnterKeepsTidy | app/subtensor_manager.py:21-24 | acquiring preserves the invariant that each connection the manager made is either still stored or has been closed |
| SubtensorManager.ScopeFailureReplacesConnection | app/subtensor_manager.py:34-42 | an `Exception` in the scope closes the old connection exactly once and makes exactly one re-creation, and the caller sees an error. On success the new connection replaces the old and the error is `RuntimeError`; on failure the closed one stays stored |
| SubtensorManager.ExceptClausesAgree | app/subtensor_manager.py:25-42 | `ConnectionError`, `AttributeError` and any other `Exception` have identical effects; a non-`Exception` error leaves the manager alone |
| SubtensorManager.ExitKeepsTidy | app/subtensor_manager.py:25-42 | leaving a scope preserves the invariant that each connection made is stored or closed |
| SubtensorManager.CloseOnceThenNoOp | app/subtensor_manager.py:44-51 | `close()` closes a held connection exactly once; a second `close()` changes nothing (idempotent) |
| SubtensorManager.CloseKeepsTidy | app/subtensor_manager.py:44-51 | after `close()`, every connection the manager ever made has been closed at least once |
| SubtensorManager.RequestClosesEveryConnection | app/subtensor_manager.py:54-59 | after any request, nothing is stored, every connection made was closed, and at most two create calls were made |
| SubtensorManager.StaleConnectionClosedTwice | app/subtensor_manager.py:41-48 | when the scope fails and the re-creation fails, the request ends with the original connection closed twice and the creation error surfaced |
| SubtensorManager.EnterSwallows | app/subtensor_manager.py:21-32 | acquiring a connection gives the same stored connection, the same result and the same calls whatever earlier close calls did |
| SubtensorManager.ExitSwallows | app/subtensor_manager.py:24-42 | leaving a scope gives the same stored connection, the same outcome and the same calls whatever earlier or handler close calls did |
| SubtensorManager.ScopeSwallows | app/subtensor_manager.py:28-40 | inside a scope, the outcome of a close call never changes the stored connection, the caller's outcome or the calls made |
| SubtensorManager.CloseFailuresSwallowed | app/subtensor_manager.py:47-50 | over a whole request, environments that differ only in close outcomes give the same result, the same stored state and the same call sequence |

## Left out

- Remote chain calls (`get_balance`, `get_stake_for_coldkey`, `get_current_block`, the client constructor, `initialize`, `close`) are opaque: per-block replies are a function of the block height, and manager call outcomes come from the `Env` parameter.
- The client object that exists when `initialize` raises is not modelled: a failed create call yields no connection, so that object is never closed by the code and never named by the model.
- `asyncio.gather` scheduling and interleaving are not modelled. Only its all-or-nothing, order-preserving result is. Which failing task's error surfaces depends on timing, so `Routers.Gather` only promises that the error is one of the failed tasks' errors.
- `datetime.now()` and `timedelta`: a record carries the integer day offset instead of a wall-clock timestamp. The clock enters only through `Clock`, which decides when the subtraction overflows. One `Clock` stands for every task's own `datetime.now()` call, so a request that spans midnight, where tasks see different days at the overflow boundary, is not modelled.
- Amounts are integers in the chain's smallest unit. The `Balance` objects and the float field of `HistoricalData` are not modelled.
- `SUBTENSOR_NETWORK` is a parameter (`Option<string>`), not read from the environment. The network name is recorded but does not affect the model.
- contextlib's special cases for `StopAsyncIteration` and `GeneratorExit` thrown into the generator are not modelled. The same goes for cancellation arriving during the manager's own awaits.
- FastAPI routing, the `Query` default of 7 days and `Depends` wiring are not modelled. Neither are the timing middleware (`app/api.py`) and the server start-up (`app/__main__.py`).
- Merging balance and stake into daily records, chart rendering and address shortening are not in the modelled code.
