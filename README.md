# wb-sheets core, modelled in Dafny

wb-sheets collects Wildberries box tariffs once a day and stores them in
PostgreSQL. It then publishes them into a list of Google spreadsheets. This
project models the logic between those services:

- the retry substrate: exponential backoff, jitter, the bounded retry loop,
  and the per-call abort timeout;
- the single-flight periodic worker;
- the tariff table: its keyed insert-or-merge and its per-day query;
- the spreadsheet registry: the active listing and last-sync stamping;
- the numeric-string validation of the tariff API response and the warehouse
  record schema;
- the mapping of a response to table rows;
- the sheet layout and the synchronisation loop;
- the string transforms of the configuration schema.

One Dafny module stands for each source file:

| module | source file |
|---|---|
| `Backoff` | `backoffDelay` |
| `Jitter` | `applyJitter` |
| `Retry` | `withRetry` |
| `AbortTimeout` | `withAbortTimeout` |
| `Worker` | `createWorker` |
| `TariffStore` | wbTariffs.repository |
| `Spreadsheets` | spreadsheets.repository |
| `TariffValidation` | wbTariffs.validation |
| `TariffClient` | `mapWarehouseRows` |
| `SheetsSync` | googleSheets.service |
| `Env` | env |

Three modules are shared:

- `Wrappers` holds `Option` and `Result`.
- `Text` holds JavaScript's white-space class, `trim` and decimal digits.
- `TariffTypes` holds the tariff record types.

The source file decides the form of each module:

- The imperative sources are modelled with methods and loops: the retry
  loop, the abort timeout, the worker, the sheet formatting loop and the
  synchronisation loop.
- The repositories are modelled as classes over a table value (`map` or
  `seq`) whose methods reassign it.
- Everything pure is modelled with functions and lemmas.

The outside world becomes parameters:

- Randomness becomes an explicit draw `r` with `0 <= r < 1`.
- A wrapped asynchronous operation becomes the function from invocation
  number to outcome.
- Clocks become given instants.
- `Number.prototype.toString` becomes a function parameter `show`.
- The Google Sheets call and the stamping statement become per-target
  success flags.
- `isUrl` becomes a predicate parameter.

## Behaviour worth noting

- `withAbortTimeout` passes the operation's result or error through
  unchanged; when the deadline passes, the operation sees an aborted signal
  and whatever it settles with is returned as is.
- `stop()` does not cancel a timer callback that is already awaiting
  `run()`: that callback calls `schedule()` afterwards and re-arms
  (`StopDuringCallbackRearms`).
- When `task` throws inside a timer callback, the callback's `await run()`
  rejects before its `schedule()`, so no new timer is armed (`ThrowEndsChain`).
- `src/app.ts` passes a callback to the tariff collector, but the collector
  neither accepts nor calls it. It is not modelled.

## Model

| member | source | states |
|---|---|---|
| Backoff.BackoffDelay | src/utils/backoff.ts:2 | The delay for attempt ≤ 1 is `baseMs`. A non-negative base and factor give a non-negative delay. |
| Backoff.NextAttempt | src/utils/backoff.ts:2 | From attempt 1 on, each further attempt multiplies the delay by `factor`, i.e. the delay is `baseMs·factor^max(0, attempt−1)`. |
| Backoff.Monotone | src/utils/backoff.ts:2 | For `factor ≥ 1` and a non-negative base, the delay never decreases as the attempt grows. |
| Backoff.ConstantFactor | src/utils/backoff.ts:2 | With factor 1, every attempt waits `baseMs`. |
| Backoff.DefaultDelays | src/utils/backoff.ts:1-2 | The defaults 500/2 give 500, 1000 and 2000 ms for attempts 1, 2 and 3. |
| Jitter.ApplyJitter | src/utils/jitter.ts:3-8 | `none` returns the delay unchanged. `full` with `d > 0` gives an integer in `[0, d−1]`, and `full` with `d = 0` gives 0. `equal` with `d ≥ 1` gives an integer in `[floor(d/2), d−1]`. For `d ≥ 0`, every mode stays within `[0, d]`. |
| Jitter.FullJitter | src/utils/jitter.ts:5 | `floor(r·d)` lies in `[0, d−1]` for `d > 0`, and is 0 for `d = 0`. |
| Jitter.EqualJitter | src/utils/jitter.ts:6-7 | `floor(d/2 + r·d/2)` lies in `[floor(d/2), d−1]` for `d ≥ 1`, and is 0 for `d = 0`. |
| Jitter.DefaultIsIdentity | src/utils/jitter.ts:3-4 | The default mode is `none`, so `applyJitter(d) = d`. |
| Jitter.FullCoversRange | src/utils/jitter.ts:5 | Every integer in `[0, d−1]` is the full jitter of some draw, so the bound is tight. |
| Retry.WithRetry | src/utils/retry.ts:17-31 | The loop's run is a retry run (`IsRetryRun`): the last outcome is returned unchanged; every earlier invocation failed with an error that `retryOn` accepted (every error when `retryOn` is absent) within the budget; the run stops on success, on a rejected error, or once `attempt > retries`; and the k-th sleep is `applyJitter(backoffDelay(k, baseMs, factor), jitterMode)` with the k-th draw. |
| Retry.RunIsDetermined | src/utils/retry.ts:18-30 | The operation, the options and the draws determine the whole run. Each call starts its own counter at 0. |
| Retry.CallsBounded | src/utils/retry.ts:19-26 | `fn` is invoked at most `retries + 1` times (once when `retries ≤ 0`). |
| Retry.FirstCallSucceeds | src/utils/retry.ts:22 | A first-call success is returned with zero sleeps. |
| Retry.RejectedErrorIsRethrown | src/utils/retry.ts:25-26 | An error that `retryOn` rejects is rethrown after one invocation, with no sleep. |
| Retry.FailuresThenSuccess | src/utils/retry.ts:20-29 | Suppose `fn` fails k ≤ `retries` times with retried errors and then succeeds. Then the success value is returned after exactly k sleeps and k+1 calls. |
| Retry.AlwaysFailing | src/utils/retry.ts:24-26 | Under the default predicate, an always-failing `fn` is invoked `retries + 1` times. The last error is propagated unwrapped, after `retries` sleeps. |
| Retry.DefaultSleepsBelowBackoff | src/utils/retry.ts:17-27 | With the defaults (500 ms, factor 2, full jitter), the k-th sleep lies in `[0, 500·2^(k−1))`. |
| Retry.SleepsGrowWithoutJitter | src/utils/retry.ts:27 | Without jitter and with `factor ≥ 1`, the sleeps never get shorter. |
| AbortTimeout.WithAbortTimeout | src/utils/abortTimeout.ts:10-21 | A fresh controller is created per call, and the operation gets that signal. The timer with `ms` is armed before the operation is called; the deadline can only fire after that call, while the operation is pending; the timer is cleared on both paths. The pending timers afterwards equal those before. The result or error passes through unchanged. |
| AbortTimeout.Timers.SetTimeout | src/utils/abortTimeout.ts:12 | A new handle not pending before is added to the pending set, and the arming is logged. |
| AbortTimeout.Timers.ClearTimeout | src/utils/abortTimeout.ts:15-18 | The handle leaves the pending set (a timer that already fired is left alone), and the clearing is logged. |
| Worker.CapOfInterval | src/utils/worker.ts:16-17 | The cap is `min(60000, floor(baseMs/10))` with `baseMs = minutes·60000`. That is 6000·minutes below 10 minutes, and 60000 from 10 minutes on. |
| Worker.NextDelay | src/utils/worker.ts:18 | A scheduled delay lies in `[baseMs, baseMs + cap − 1]` when `cap > 0`, and equals `baseMs` when `cap = 0`. |
| Worker.StepKeepsInv | src/utils/worker.ts:20-47 | Every event preserves the worker invariant: one execution in flight exactly when `isRunning` holds (none otherwise), a launcher exactly when running, and every armed timer with a delay in range. |
| Worker.StepsKeepInv | src/utils/worker.ts:20-47 | Any sequence of events from an invariant state keeps the invariant. |
| Worker.SingleFlight | src/utils/worker.ts:21-22 | From creation, under any sequence of events, at most one task execution is in progress, and `isRunning` holds exactly when one is. |
| Worker.ScheduledDelaysInRange | src/utils/worker.ts:18-34 | Every armed timer carries a delay in the jitter range. |
| Worker.BusyTimerSkipsRun | src/utils/worker.ts:21-32 | A timer that fires during a run starts no second execution. |
| Worker.StartBehaviour | src/utils/worker.ts:37-39 | `start()` runs `task` at once only with `runImmediately` (and no run in progress), and always arms a timer. |
| Worker.TimerCycle | src/utils/worker.ts:31-34 | On an idle worker, a firing timer runs `task`. When `task` completes, the callback re-arms a new timer. |
| Worker.StopIsIdempotent | src/utils/worker.ts:42-47 | `stop()` clears the pending timer and sets `timer` to undefined. A second `stop()` changes nothing. |
| Worker.StopDoesNotInterrupt | src/utils/worker.ts:42-47 | `stop()` does not touch `isRunning` or a run in progress. |
| Worker.StopDuringCallbackRearms | src/utils/worker.ts:31-47 | A `stop()` issued while a timer callback awaits its run is followed by a re-arm: stop is not final. |
| Worker.QuiescentStaysQuiescent | src/utils/worker.ts:20-47 | A worker with nothing running, armed or resuming never runs again without `start()`. |
| Worker.ThrowEndsChain | src/utils/worker.ts:23-33 | A task that throws inside a timer callback ends the timer chain. |
| Worker.PeriodicWorker.Run | src/utils/worker.ts:20-22 | `run()` up to `await task()`: the new state is the `Launch` step. `isRunning` holds afterwards; if a run was already in progress nothing starts, otherwise exactly one execution starts, owned by the caller. |
| Worker.PeriodicWorker.Schedule | src/utils/worker.ts:30-35 | `schedule()`: the new state is the `Arm` step. `timer` names the timer it armed, whose delay is in the jitter range, and every other armed timer keeps its delay. |
| Worker.PeriodicWorker.Start | src/utils/worker.ts:37-40 | The object's new state is the `Start` step of the state machine, and the invariant is kept. |
| Worker.PeriodicWorker.TimerFires | src/utils/worker.ts:31-32 | The object's new state is the timer-fires step, and the invariant is kept. |
| Worker.PeriodicWorker.TaskFinishes | src/utils/worker.ts:24-27 | The object's new state is the normal-completion step: `isRunning` is reset. |
| Worker.PeriodicWorker.TaskThrows | src/utils/worker.ts:24-27 | The object's new state is the throw step: `isRunning` is reset and the awaiting callback will not re-arm. |
| Worker.PeriodicWorker.CallbackResumes | src/utils/worker.ts:33 | The object's new state is the re-arm step of a resumed callback. |
| Worker.PeriodicWorker.Stop | src/utils/worker.ts:42-47 | The object's new state is the `stop()` step. |
| Worker.PeriodicWorker.IsRunning | src/utils/worker.ts:49 | Returns `isRunning`, which is true exactly when one execution is in flight. |
| TariffStore.ToPayload | src/postgres/repositories/wbTariffs.repository.ts:9-24 | One payload element per row, in order. Each element has the row's key and non-key fields, and `updated_at` is the single client time. |
| TariffStore.ApplyUpsert | src/postgres/repositories/wbTariffs.repository.ts:26-28 | The key set afterwards is the old key set union the input keys. Keys absent from the input are untouched. |
| TariffStore.UpsertAt | src/postgres/repositories/wbTariffs.repository.ts:26-47 | With distinct keys, each input key holds the merged row, or the inserted row when the key was new. |
| TariffStore.UpsertStoresIncoming | src/postgres/repositories/wbTariffs.repository.ts:23-47 | Each input key ends up with the incoming non-key fields. `updated_at` is server `now()` on merge and the payload's client time on insert. `created_at` is kept on merge and set to `now()` on insert. |
| TariffStore.UpsertIsIdempotent | src/postgres/repositories/wbTariffs.repository.ts:29-47 | Replaying the same input leaves every row equal in every column except `updated_at`. |
| TariffStore.UpsertAppend | src/postgres/repositories/wbTariffs.repository.ts:26-28 | For an input with distinct keys, upserting `a + b` equals upserting `a` and then `b`. |
| TariffStore.ChunkedUpsertIsOneUpsert | src/services/wbTariffs/wbTariffs.service.ts:20 | Extrapolation: for an input with distinct keys, upserting the chunks of any positive size in order, all committed, equals one upsert of the whole input. |
| TariffStore.SortByCoef | src/postgres/repositories/wbTariffs.repository.ts:92 | The result is a permutation of the set and ascends by `box_delivery_coef_expr`. |
| TariffStore.LatestTariffsForDate | src/postgres/repositories/wbTariffs.repository.ts:68-95 | This answer is a valid query answer (`IsLatestFor`): exactly the rows whose `tariff_date` is the day, each once, projected to the selected columns, ascending by the coefficient. |
| TariffStore.TariffRepository.UpsertTariffs | src/postgres/repositories/wbTariffs.repository.ts:6-48 | Empty input leaves the table unchanged. Otherwise the table becomes the upsert of the payload. |
| Spreadsheets.ToRow | src/postgres/repositories/spreadsheets.repository.ts:23-30 | `lastSyncedAt` is null exactly when the stored value is absent, and otherwise carries the stored time. The id, sheet name, active flag, creation time and update time are copied. |
| Spreadsheets.FilterActive | src/postgres/repositories/spreadsheets.repository.ts:20 | Keeps only active rows, and keeps every active row with its multiplicity. |
| Spreadsheets.SortByCreatedSorts | src/postgres/repositories/spreadsheets.repository.ts:21 | The sort ascends by `created_at` and is a permutation. |
| Spreadsheets.MapRows | src/postgres/repositories/spreadsheets.repository.ts:23-30 | One output record per row, same count and order. |
| Spreadsheets.ActiveSpreadsheetsIsListing | src/postgres/repositories/spreadsheets.repository.ts:17-31 | The computed listing is a valid listing (`IsActiveListing`): the mapped active rows, as a permutation, ascending by `created_at`. |
| Spreadsheets.ListedIffActive | src/postgres/repositories/spreadsheets.repository.ts:20-30 | A stored row is listed exactly when it is active. |
| Spreadsheets.SpreadsheetRegistry.GetActiveSpreadsheets | src/postgres/repositories/spreadsheets.repository.ts:17-31 | Returns a valid listing, in which a row appears exactly when it is active. |
| Spreadsheets.Touched | src/postgres/repositories/spreadsheets.repository.ts:37-42 | Same length. Each row is stamped when its id matches and kept otherwise. |
| Spreadsheets.TouchedChangesOnlyMatching | src/postgres/repositories/spreadsheets.repository.ts:38-42 | Rows with another id are unchanged. Matching rows get `last_synced_at` and `updated_at` set to `now`, and every other column is kept. |
| Spreadsheets.TouchedTwice | src/postgres/repositories/spreadsheets.repository.ts:37-42 | Stamping twice equals stamping once with the later time. |
| Spreadsheets.TouchKeepsTargets | src/postgres/repositories/spreadsheets.repository.ts:17-43 | Stamping never changes which spreadsheets are listed, nor their order. |
| Spreadsheets.SpreadsheetRegistry.UpdateLastSyncedAt | src/postgres/repositories/spreadsheets.repository.ts:36-43 | The registry becomes the stamped table. |
| TariffValidation.Preprocess | src/services/wbTariffs/wbTariffs.validation.ts:4-13 | A string or other value reaches the format check with no white space. |
| TariffValidation.CleanIsStrip | src/services/wbTariffs/wbTariffs.validation.ts:8 | `trim` followed by removing all white space equals removing all white space. |
| TariffValidation.ScanIsRender | src/services/wbTariffs/wbTariffs.validation.ts:16 | Whatever the scanner accepts is exactly the rendering of the parts it returns. |
| TariffValidation.ScanRender | src/services/wbTariffs/wbTariffs.validation.ts:16 | Every string of the form `-?digits([.,]digits)?` is accepted and scanned back into its parts. |
| TariffValidation.ScanIffForm | src/services/wbTariffs/wbTariffs.validation.ts:16 | A string is accepted exactly when it has the form `^-?\d+([.,]\d+)?$`. |
| TariffValidation.RejectedExamples | src/services/wbTariffs/wbTariffs.validation.ts:16 | The strings "+5", ".5", "1." and "1,2,3" do not match the pattern. |
| TariffValidation.NormalizeRender | src/services/wbTariffs/wbTariffs.validation.ts:18 | Replacing the first comma turns the text into its dotted form. |
| TariffValidation.NumericString | src/services/wbTariffs/wbTariffs.validation.ts:3-22 | A value passes exactly when its cleaned text has the form `^-?\d+([.,]\d+)?$`, and then yields that text's exact signed decimal value; a failure is "Invalid numeric format". |
| TariffValidation.CheckFormat | src/services/wbTariffs/wbTariffs.validation.ts:14-21 | A failure is always "Invalid numeric format". |
| TariffValidation.CheckFormatMeaning | src/services/wbTariffs/wbTariffs.validation.ts:14-21 | A cleaned text passes exactly when it matches the pattern, and then yields its exact signed decimal value. |
| TariffValidation.MissingIsZero | src/services/wbTariffs/wbTariffs.validation.ts:5-22 | `null` and `undefined` parse to 0. |
| TariffValidation.SignOnlyIsZero | src/services/wbTariffs/wbTariffs.validation.ts:9 | A string that cleans to "", "-" or "+" parses to 0. |
| TariffValidation.WhitespaceIgnored | src/services/wbTariffs/wbTariffs.validation.ts:8 | White space anywhere in a string does not change the result. |
| TariffValidation.PreprocessClean | src/services/wbTariffs/wbTariffs.validation.ts:7-10 | A clean string other than "", "-" and "+" reaches the check unchanged. |
| TariffValidation.WellFormedStringValue | src/services/wbTariffs/wbTariffs.validation.ts:16-20 | A string of the form parses to its exact signed decimal value. |
| TariffValidation.CommaReadsAsDot | src/services/wbTariffs/wbTariffs.validation.ts:18 | "3,25" and "3.25" give the same value: the separator does not matter. |
| TariffValidation.IntegerValue | src/services/wbTariffs/wbTariffs.validation.ts:16-20 | A plain or negated natural number parses to itself. |
| TariffValidation.RejectedClean | src/services/wbTariffs/wbTariffs.validation.ts:9-16 | A clean string that is not a lone sign and does not match the pattern is rejected. |
| TariffValidation.RejectedStrings | src/services/wbTariffs/wbTariffs.validation.ts:16 | "+5", ".5", "1." and "1,2,3" are rejected as field values. |
| TariffValidation.ParseAll | src/services/wbTariffs/wbTariffs.validation.ts:27-35 | All fields succeed exactly when each does. Then each value is that field's parse. |
| TariffValidation.ParseWarehouse | src/services/wbTariffs/wbTariffs.validation.ts:24-36 | A record passes exactly when both names are strings and all nine numeric fields pass. Then the names are copied and each rate is that field's `numericString` value. |
| TariffClient.MapWarehouseRows | src/services/wbTariffs/wbTariffs.client.ts:64-84 | Same length and order. Every row carries the given `tariffDate` and `fetchedAt`, and the warehouse's names and nine rates copied unchanged. |
| TariffClient.DistinctNamesGiveDistinctKeys | src/services/wbTariffs/wbTariffs.client.ts:69-72 | A list naming each warehouse once yields rows with distinct table keys. |
| TariffClient.StoredListIsQueried | src/services/wbTariffs/wbTariffs.client.ts:69-82 | After storing one day's list into a table with no rows for that day, every answer of the day's query holds exactly the list's warehouses. |
| SheetsSync.DataRow | src/services/googleSheets/googleSheets.service.ts:84-96 | 11 cells: the warehouse name, the region, then the nine rates in header order through `show`. |
| SheetsSync.SheetOf | src/services/googleSheets/googleSheets.service.ts:81-99 | `|tariffs| + 1` rows. Row 0 is the fixed header, and row i+1 is the data row of tariff i. |
| SheetsSync.FormatTariffsForSheets | src/services/googleSheets/googleSheets.service.ts:66-100 | The pushed rows are exactly the sheet of the tariffs. |
| SheetsSync.SheetIsRectangular | src/services/googleSheets/googleSheets.service.ts:67-96 | The header and every data row have exactly 11 cells. |
| SheetsSync.SheetDeterminesTariffs | src/services/googleSheets/googleSheets.service.ts:83-97 | When `show` tells numbers apart, the sheet determines the tariffs: nothing is lost or reordered. |
| SheetsSync.StampedRowsMeaning | src/services/googleSheets/googleSheets.service.ts:42-57 | A registry row changes only if a target with its id was reached (written and stamped). Such a row ends with a last-sync time, and every other column is kept. |
| SheetsSync.WriteEach | src/services/googleSheets/googleSheets.service.ts:42-57 | Targets are processed in order with the same data. A target is written per its call's outcome and stamped only after its write succeeded. A failure moves on to the next target. |
| SheetsSync.SyncAllSpreadsheets | src/services/googleSheets/googleSheets.service.ts:23-60 | With no active spreadsheets it returns before anything else, and with no tariffs it returns without writing; the registry is then unchanged. Otherwise there is one attempt per target, in registry order, all with the same formatted sheet; a failure is isolated, a target is stamped only after its write, and the registry ends as the stamping of the reached targets. |
| Env.CoerceNumber | src/config/env/env.ts:6-10 | Accepted exactly when the value is a non-empty string of ASCII digits. The number is its base-10 value. |
| Env.CoerceNumberRoundTrip | src/config/env/env.ts:9-10 | Every natural number reads back from its decimal text. |
| Env.CoerceNumberLeadingZeros | src/config/env/env.ts:10 | Leading zeros are accepted and do not change the number. |
| Env.PostgresPort | src/config/env/env.ts:29 | Required: unset is an error. A set value is accepted exactly when it is a non-empty string of digits, and gives its base-10 value. |
| Env.AppPort | src/config/env/env.ts:33 | Unset gives no port. A set value is checked and read like the required port. |
| Env.WbApiUrl | src/config/env/env.ts:34-37 | Unset gives "https://common-api.wildberries.ru". A set value must pass `isUrl` and is kept. |
| Env.Split | src/config/env/env.ts:43 | At least one piece, every piece comma-free, and joining with commas restores the input. |
| Env.SplitJoin | src/config/env/env.ts:43 | Splitting undoes joining comma-free pieces. |
| Env.SpreadsheetIds | src/config/env/env.ts:39-46 | A missing variable (read as `""` at line 79) gives an empty list. No id is empty, holds a comma, or has white space at either end. Which ids appear, and in what order, is stated by `SpreadsheetIdsOfJoin`. |
| Env.SpreadsheetIdsRoundTrip | src/config/env/env.ts:41-45 | Clean ids joined with commas read back as the same list, in order. |
| Env.SpreadsheetIdsOfJoin | src/config/env/env.ts:41-45 | For any comma-free pieces, the ids of their comma join are the trimmed pieces, in order, with the empty ones dropped. Since every string is the join of its split, this fixes the result for every input. |
| Env.SpacesAroundCommasIgnored | src/config/env/env.ts:44-45 | `" a , b "` reads as `[a, b]`. |
| Env.EmptyPiecesDropped | src/config/env/env.ts:43-45 | `"a,,b,"` reads as `[a, b]`: doubled and trailing commas add no ids. |
| Env.NonEmpty | src/config/env/env.ts:45 | Keeps exactly the non-empty pieces, and never lengthens the list. |
| Env.NonEmptySingle | src/config/env/env.ts:45 | One piece is kept exactly when it is non-empty. |
| Env.NonEmptyAppend | src/config/env/env.ts:45 | The filter distributes over concatenation, so it keeps the order and every occurrence of the non-empty pieces. |

## Left out

- Logging (log4js) and all I/O are left out. The HTTP fetch `fetchBoxTariffs`, the googleapis wrapper `googleSheets.client.ts` and the knex connection are not part of this model. `updateSheet` and `updateLastSyncedAt` appear only through their success flags.
- The workers `tariffsCollector.ts` and `sheetsPublisher.ts`, and `src/app.ts`, are plumbing: `setInterval`, singletons, migrations and seeding, `process.exit`. They are not part of this model. The first-success handshake is not implemented in the code and is not modelled.
- `wbTariffs.service.ts` is orchestration only. `upsertTariffsChunked` is not part of this model, so no transaction or rollback behaviour is claimed. `TariffStore.ChunkedUpsertIsOneUpsert` is an extrapolation that assumes every chunk commits.
- Composing `withRetry` with `withAbortTimeout` is left out. Each is modelled on its own.
- Floating point is left out. Numbers are exact reals: `parseFloat`, `Math.pow` with non-integer arguments, the column type `decimal(14, 4)` with its rounding, and `Number.prototype.toString` (given as `show`) are not modelled. The pg driver may return NUMERIC columns as strings, so the text in a cell depends on the driver.
- `Backoff.BackoffDelay`: does not model a non-integer base or factor, because then `Math.floor` and `Math.pow` on doubles matter. The model takes integers, for which the floor is the identity.
- `Jitter.ApplyJitter`: the equal-jitter bound `[floor(d/2), d−1]` is stated for integer `d ≥ 1`. Negative delays are not constrained, because the source has no behaviour for them worth stating.
- Dates and times are opaque integers (`Day`, `Instant`). UTC truncation, `toISOString` and the server's `now()` are given values. `now()` is taken as constant within one statement.
- The client clock of `upsertTariffs`'s payload and the server clock of the merge are separate parameters. The model does not relate them.
- The serial `id` column and the `spreadsheets` seed file are left out.
- Duplicate keys within one `upsertTariffs` call are excluded by a precondition (`DistinctRowKeys`, and `DistinctKeys` in `UpsertAt`, `UpsertAppend` and `ChunkedUpsertIsOneUpsert`), because PostgreSQL rejects an `ON CONFLICT DO UPDATE` statement that touches a row twice.
- `TariffStore.LatestTariffsForDate` and `Spreadsheets.SpreadsheetRegistry.GetActiveSpreadsheets`: rows with equal sort keys may come in any order, because `ORDER BY` leaves ties unspecified. Both are specified by the predicates `IsLatestFor` and `IsActiveListing`, which admit every tie order. `SyncAllSpreadsheets` takes the answers as parameters satisfying them.
- zod's error aggregation and message texts are left out. Only "Invalid numeric format" is modelled; field errors are reduced to one message.
- `isNaN(parsed) ? 0 : parsed` is left out, because after the pattern check `parseFloat` never yields NaN.
- A numeric field given as a JSON number is modelled by the text its `toString` gives (`Num`). Forms like `1e21` are then rejected by the pattern, as in the source.
- The `GOOGLE_SERVICE_ACCOUNT` JSON/base64 decoding, `dotenv` loading, the other plain string variables and `process.env` reads are library calls and are left out. `z.string().url()` is the parameter `isUrl`.
- `Worker.PeriodicWorker.Start`: calling `start()` twice arms a second timer and loses the handle of the first. The model records both timers as armed, and `stop()` then clears only the latest one.
- The worker's jitter draw, the timers' real-time ordering and `task`'s duration are events and parameters. No claim is made about wall-clock timing.
