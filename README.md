# go-database migration core, modelled in Dafny

This project models the three core components of the `go-database` package: the
migration registry and loader, the SQLite retry executor, and the migration runner. It
proves what each one promises its callers.

- **Registry and loader** (`registry.dfy`, module `MigrationRegistry`)
  - The process-wide registry is a class holding the ordered list of registered
    `MigrationSource`s.
  - The filename parser `parseMigrationFilename` is modelled as code.
  - `validateMigrationSequence` checks that versions run 1..n.
  - The directory loader groups `VERSION_name.up.sql` / `.down.sql` files into one
    `Migration` per version and sorts them.
  - `loadMigrationsFromSource`, `GetAllMigrations` and `GetMigrationStats` build on the
    loader.
  - The file system is a value, `FileSystem`. It maps a directory to the paths the
    `*.sql` glob returns, each with what reading it gives.
- **Retry executor** (`retry.dfy`, module `RetryExecutor`)
  - `retryDatabaseOperation` is modelled as a loop with:
    - exponential backoff with a cap;
    - jitter;
    - a clamp to the remaining budget;
    - a termination measure (budget minus elapsed time).
  - The thin `…WithRetry` wrappers and `WithTransactionRetry` are modelled on top of it.
  - Time is an abstract clock of integer nanoseconds.
  - Each call of the operation is an input: its error and how long it took.
  - Each `rand.Float64()` draw is an input fraction in [0, 1).
- **Runner** (`runner.dfy`, module `Runner`)
  - `NewMigrator`'s choice of database URL and migrations source.
  - `GetDatabaseFile`.
  - The error mapping of `Up`, `Down`, `Goto`, `Version`, `Force` and `Drop`. Each answer
    of the golang-migrate engine is an input.
  - The `UpAll` loop over the registered sources, recorded as the trace of the calls it
    makes.
  - `Close`'s error collection.
  - `validateTableColumns`.
  - `GetMigrationStatus`.
- **Helpers**
  - `text.dfy` (module `Text`) holds the parts of Go's `strings`, `path/filepath` and
    `fmt` that the code relies on: `HasSuffix`, `TrimSuffix`, `Contains`, `Join`, the
    split at the first `_`, `filepath.Base`, and `fmt.Sscanf("%d")` into a 64-bit
    `uint`.
  - `common.dfy` holds `Option` and `Result`.

Where the code and a plain reading of its comments differ, the model follows the code. The one exception is the retry executor's backoff: `RetryExecutor.RetryFrom` and the members built on it use the intended, unbounded `BackoffDelay`, and the 64-bit wrap-around of retry.go:68-77 is modelled by the `…AsWritten` members and the lemmas about them (see "## Findings").

- The parser's "numeric version" is whatever `fmt.Sscanf(…, "%d", &uint)` accepts.
  - Leading white space is skipped.
  - The longest run of digits is read and any text after it is ignored, so `12abc_x.up.sql`
    has version 12.
  - The value must fit in 64 bits.
- The directory loader does not call the parser. Instead it splits at every `_` and joins
  the tail back together. `MigrationRegistry.LoaderAgreesWithParser` proves that on bare file names
  the two accept the same names and read the same version, name and direction.
- A negative jittered delay becomes `BaseDelay`, not zero.
- `Force` and `Drop` do not treat golang-migrate's "no change" as success. Only `Up`, `Down`
  and `Goto` do.

## Model

| member | source | states |
|---|---|---|
| MigrationRegistry.Registry.constructor | registry.go:38-40 | the global registry starts with no sources |
| MigrationRegistry.Registry.Register | registry.go:43-49 | appends the source at the end, with no duplicate check; every earlier entry stays where it was |
| MigrationRegistry.Registry.Snapshot | registry.go:52-60 | returns a freshly allocated array whose contents equal the registered list, in registration order |
| MigrationRegistry.SnapshotIsACopy | registry.go:56-59 | writing into a returned copy leaves the registry's list unchanged |
| MigrationRegistry.Registry.Clear | registry.go:212-216 | afterwards the registry is empty |
| MigrationRegistry.ParseMigrationFilename | registry.go:237-270 | definition of the parser on a path: the checks are made on `filepath.Base` of the path, and every error names the path as given; what it accepts and returns is stated by the four `Parse…Iff` lemmas, `ParseSuccess` and `ParseFormatRoundTrip` |
| MigrationRegistry.ParseBaseName | registry.go:240-255 | definition of the first two checks: ".sql" must end the name and is trimmed, then ".up" (checked first) or ".down" is trimmed and fixes the direction; properties in `ParseReadsWholeName` |
| MigrationRegistry.ParseStem | registry.go:257-269 | definition of the last two checks: split at the first '_', scan the part before it as a `uint`; the name is the rest |
| MigrationRegistry.ParseNotSqlIff | registry.go:241-243 | the parser fails with the ".sql" error exactly when the base name does not end in ".sql" |
| MigrationRegistry.ParseNoDirectionIff | registry.go:246-255 | it fails with the direction error exactly when a ".sql" name ends in neither ".up.sql" nor ".down.sql" |
| MigrationRegistry.ParseNoSeparatorIff | registry.go:257-261 | it fails with the format error exactly when a name with a direction suffix has no '_' |
| MigrationRegistry.ParseBadVersionIff | registry.go:263-267 | it fails with the version error exactly when the text before the first '_' does not scan as an unsigned number |
| MigrationRegistry.ParseSuccess | registry.go:237-270 | on success the direction matches the suffix, the version is the scanned text before the first '_', and the name is everything after that '_' up to the direction suffix |
| MigrationRegistry.ParseReadsWholeName | registry.go:238-269 | trimming ".sql" and then ".up"/".down" makes the same decisions as reading the four checks off the whole base name |
| MigrationRegistry.ParseFormatRoundTrip | registry.go:237-270 | parsing `VERSION_name.up.sql` / `.down.sql`, written with any version that fits a `uint` and any name without '/', gives back that version, name and direction |
| MigrationRegistry.ParseExample | registry.go:236 | "000001_create_users_table.up.sql" parses as (1, "create_users_table", up) |
| MigrationRegistry.MatchLoaderName | registry.go:117-149 | definition of the loader's own name test: split at '_' (at least two parts), scan the first part, then ".up.sql" or else ".down.sql" must end the rejoined rest, which is trimmed to the name; its agreement with the parser is `LoaderAgreesWithParser` |
| MigrationRegistry.LoaderAgreesWithParser | registry.go:117-131 | on bare file names the loader keeps exactly the names the parser accepts, and reads the same version, name and direction; no '_', a non-numeric version, or neither ".up.sql" nor ".down.sql" makes the loader skip the file |
| MigrationRegistry.Classify | registry.go:113-135 | definition of what the loop body makes of one listed path: skipped when its base name does not match, a read failure when the file cannot be read, otherwise the matched file with its content |
| MigrationRegistry.AddFile | registry.go:138-163 | definition of one map update: the entry for the version is created with the file's name and the source's name only if absent, then that direction's content is set; its effect is stated by `WithContent` and `GroupNames`/`GroupContents` |
| MigrationRegistry.GroupItems | registry.go:113-165 | definition of the loop as a fold over the classified entries, stopping at the first read failure; stated by `GroupError`, `GroupKeys`, `GroupNames`, `GroupContents` |
| MigrationRegistry.Group | registry.go:111-165 | the fold applied to the classified listing of one directory |
| MigrationRegistry.WithContent | registry.go:146-163 | setting one direction's content leaves the other direction's content, the version, name and source unchanged |
| MigrationRegistry.GroupError | registry.go:133-153 | grouping fails exactly when some migration file cannot be read, and then reports the first such path |
| MigrationRegistry.GroupKeys | registry.go:111-164 | after grouping there is one entry per version that some migration file carries, keyed by its version, under the source's name |
| MigrationRegistry.GroupNames | registry.go:139-162 | each entry's name comes from the first file of its version, in either direction; later files do not rename it |
| MigrationRegistry.GroupContents | registry.go:146-163 | an up file and a down file of one version are merged; for each direction the content is that of the last file of that version and direction, or empty if there is none |
| MigrationRegistry.GroupEntries | registry.go:111-165 | the loop over the listed entries builds exactly the grouping function's map or error |
| MigrationRegistry.Insert | registry.go:174-176 | inserting into a sorted list keeps it sorted and adds exactly that element |
| MigrationRegistry.SortByVersion | registry.go:174-176 | the result is sorted by version and is a permutation of the input |
| MigrationRegistry.SortedValues | registry.go:167-176 | the values of a version-keyed map, listed strictly ascending, one per key |
| MigrationRegistry.ListsExactlyUnique | registry.go:167-176 | only one list lists a version-keyed map exactly, strictly ascending, so the unstable sort still has only one possible result |
| MigrationRegistry.CollectValues | registry.go:167-171 | collecting the map's values in any order gives each entry once and no other |
| MigrationRegistry.DirectoryMigrations | registry.go:101-180 | definition of the directory loader's result: a glob failure gives the listing error, a grouping failure its error, otherwise the map's values in ascending version order; stated by `DirectoryResult` |
| MigrationRegistry.LoadFromDirectory | registry.go:101-180 | a failed glob gives the listing error; otherwise the grouping error, or the grouped migrations sorted strictly ascending |
| MigrationRegistry.SourceMigrations | registry.go:90-98 | definition of `loadMigrationsFromSource`: an embedded bundle wins and gives an empty list, then a non-empty directory is loaded, otherwise an error naming the source |
| MigrationRegistry.DirectoryResult | registry.go:111-176 | a successful load lists, strictly ascending, one migration per version found among the files, named after the first file of that version, with the last file's content per direction and the source's name |
| MigrationRegistry.LoadFromSource | registry.go:90-98 | an embedded bundle wins and gives an empty list (the placeholder walk of registry.go:183-193); otherwise a directory is loaded; with neither the error names the source |
| MigrationRegistry.CollectLoads | registry.go:70-78 | definition of the collecting loop as a fold: each source's migrations are appended in registration order; the first failing source stops it with its error wrapped with its name; stated by `CollectError`, `CollectContents` |
| MigrationRegistry.GetAllMigrations | registry.go:63-87 | nothing registered gives an empty list; otherwise it fails exactly when collecting fails, or returns the collected migrations sorted by version as a permutation |
| MigrationRegistry.CollectError | registry.go:72-76 | collecting fails exactly when some source fails to load, and then returns the first failing source's error wrapped with that source's name |
| MigrationRegistry.CollectContents | registry.go:72-78 | after a successful collection every source loaded, and a migration is in the list exactly when it is among some source's migrations |
| MigrationRegistry.GetMigrationStats | registry.go:196-209 | the loop computes exactly the statistics function of the registered sources |
| MigrationRegistry.StatsOf | registry.go:198-206 | definition of the statistics loop as a fold: each source's count is stored under its name, a later source overwriting; the first load error is returned unwrapped; stated by `StatsError`, `StatsCounts` |
| MigrationRegistry.StatsError | registry.go:200-204 | the statistics fail exactly when some source fails to load, with the first failing source's unwrapped error |
| MigrationRegistry.StatsCounts | registry.go:198-206 | successful statistics have one key per registered name, counting the migrations of the last source registered under that name |
| MigrationRegistry.ValidateMigrationSequence | registry.go:219-233 | succeeds exactly when the i-th migration has version i + 1 throughout, the empty list included; otherwise it reports the first index where that fails, with the expected and the found version |
| Text.TrimSuffix | registry.go:130-132 | when the suffix is present, the result followed by the suffix is the input; otherwise the input is unchanged |
| Text.Cut | registry.go:257-261 | no result exactly when the separator is absent; otherwise the part before the first separator, the separator and the rest rebuild the string |
| Text.Base | registry.go:238 | `filepath.Base` is never empty |
| Text.BaseOfPlainName | registry.go:114 | a non-empty name without '/' is its own base name |
| Text.ScanDecimalString | registry.go:263-267 | scanning the decimal spelling of any value a `uint` holds gives that value back |
| Text.ScanIgnoresTrailingText | registry.go:122-127 | the version scan stops at the first non-digit, so trailing text is ignored |
| Text.JoinContainsParts | migrator.go:327 | every part occurs in the joined text |
| RetryExecutor.DefaultRetryConfig | retry.go:12-35 | the defaults are a 30s budget, a 10ms base delay, a 1s cap and 0.25 jitter |
| RetryExecutor.LockErrorInContext | retry.go:53 | an error whose text contains "database is locked" or "SQLITE_BUSY" anywhere is a lock error |
| RetryExecutor.IsLockError | retry.go:53 | definition: an error is retried when its text contains "database is locked" or "SQLITE_BUSY" |
| RetryExecutor.DoubledIsProduct | retry.go:68-69 | k doublings of the base equal base * 2^k |
| RetryExecutor.BackoffDelay | retry.go:68-72 | the pre-jitter delay is min(BaseDelay * 2^attempt, MaxDelay) |
| RetryExecutor.BackoffMonotone | retry.go:68-72 | with a non-negative base the backoff never shrinks from one attempt to a later one |
| RetryExecutor.BackoffReachesCap | retry.go:70-72 | once BaseDelay * 2^j reaches the cap, every later backoff equals the cap |
| RetryExecutor.Truncate | retry.go:76 | the conversion of a float to `time.Duration` drops the fraction toward zero |
| RetryExecutor.Jitter | retry.go:75-76 | definition of the jitter for one draw u: range = base * percent, truncated toward zero from u * range * 2 - range; bounded by `JitterBounds` |
| RetryExecutor.DrawnJitter | retry.go:75-76 | the jitter before sleep k is computed from draw k and attempt k's backoff |
| RetryExecutor.JitterBounds | retry.go:75-76 | the jitter lies within ± base * JitterPercent |
| RetryExecutor.JitteredDelay | retry.go:77-82 | the jittered delay is non-negative, or it is BaseDelay |
| RetryExecutor.JitteredDelayBounds | retry.go:74-82 | the delay lies within base ± range, or it was negative and was replaced by BaseDelay |
| RetryExecutor.SleepDelay | retry.go:84-87 | the delay never exceeds what remains of the budget, and is the jittered delay or the remainder |
| RetryExecutor.DefaultDelayPositive | retry.go:66-92 | under the defaults every delay computed while time remains is positive |
| RetryExecutor.RetryFrom | retry.go:43-97 | definition of the executor from one call on, recursive on the budget still left: nil is returned; a non-lock error, or a lock error once elapsed reaches the budget or the clamped delay is not positive, is returned; otherwise it sleeps that delay and goes on with the next attempt; stated by `RetryCalls`, `RetryTiming`, `RetryStopReason` |
| RetryExecutor.Retry | retry.go:38-98 | the executor from the first call, with the clock at 0 and attempt 0 |
| RetryExecutor.RetryDatabaseOperation | retry.go:38-98 | the loop returns exactly the run the executor's specification gives: the same error and the same sleeps |
| RetryExecutor.ImmediateSuccess | retry.go:44-50 | a nil result on the first call is returned at once, with no sleep |
| RetryExecutor.NonRetryableError | retry.go:53-57 | an error that is not a lock error is returned after exactly one call |
| RetryExecutor.RetryCalls | retry.go:43-96 | one more call is made than there are sleeps; every call but the last failed with a lock error; the result is the last call's error |
| RetryExecutor.RetryTiming | retry.go:60-96 | sleep i follows call i and is positive; it lasts that attempt's clamped delay and ends within the budget |
| RetryExecutor.RetryStopReason | retry.go:59-92 | a lock error is given up only when elapsed has reached the budget or the computed delay is not positive |
| RetryExecutor.PositiveDelaysUseWholeBudget | retry.go:60-92 | if every delay computed while time remains is positive, a lock error is returned only once the whole budget is used |
| RetryExecutor.DefaultRetriesForWholeBudget | retry.go:59-92 | under the defaults a lock error is returned only after at least 30 seconds |
| RetryExecutor.DrawnDelayPositive | retry.go:75-92 | under the defaults the delay computed from any draw is positive while time remains |
| RetryExecutor.TotalSleepWithinBudget | retry.go:84-96 | the sleeps together never exceed the budget |
| RetryExecutor.SleepsFitBetween | retry.go:94-96 | sleeps that each start after the previous one ended fit, in total, before the last one ends |
| RetryExecutor.Wrap64 | retry.go:69 | 64-bit two's complement wrap-around: in range, and congruent to the input modulo 2^64 |
| RetryExecutor.BackoffDelayAsWritten | retry.go:68-72 | the backoff as written, with the `int64` product wrapping around, is still at most the cap |
| RetryExecutor.BackoffAsWrittenWhileItFits | retry.go:68-72 | while BaseDelay * 2^attempt fits in 64 bits, the written code computes the intended backoff |
| RetryExecutor.BackoffOverflowsAtAttempt40 | retry.go:68-92 | under the defaults at attempt 40 the written product wraps negative; for a draw up to 0.975 the written code computes a 10ms delay, and for a draw from 0.976 on the jitter addition wraps again and the code sleeps all that remains of the budget; the intended backoff is the 1s cap and the intended delay is between 750ms and 1.25s |
| RetryExecutor.JitteredDelayAsWritten | retry.go:74-82 | from the backoff as written, with the `int64` addition of the jitter wrapping around, the delay is non-negative or BaseDelay, and within `int64` |
| RetryExecutor.SleepDelayAsWritten | retry.go:84-87 | the written code's delay clamped to the remaining budget never exceeds it |
| RetryExecutor.BackoffAsWrittenAt40 | retry.go:68-72 | under the defaults the written backoff at attempt 40 is -7_451_627_795_949_551_616 |
| RetryExecutor.LowDrawAt40 | retry.go:75-80 | for draws up to 0.975 that backoff plus its jitter stays inside `int64` and negative, so the written delay is BaseDelay |
| RetryExecutor.HighDrawAt40 | retry.go:75-80 | for draws from 0.976 on the sum falls below the `int64` range and wraps to a value above the 30s budget, so the written delay exceeds the budget |
| RetryExecutor.IntendedDelayAt40 | retry.go:68-82 | under the defaults the intended backoff at attempt 40 is the 1s cap, and the delay after jitter lies between 750ms and 1.25s |
| RetryExecutor.BackoffVanishesFromAttempt64 | retry.go:68-92 | for every configuration with a non-negative cap, from attempt 64 on the written backoff, the delay after jitter and the clamped sleep are all 0, so the code reaches the give-up branch while budget remains |
| RetryExecutor.BackoffVanishesAtAttempt58 | retry.go:68-92 | with a 1ms base delay and a 10ms cap the written backoff and sleep are already 0 at attempt 58, while the intended sleep there is positive whenever budget remains |
| RetryExecutor.RetryCapturing | retry.go:245-268 | `ExecWithRetryConfig` / `QueryWithRetryConfig` return the executor's error and the value written by the last call made |
| RetryExecutor.RetryCapturingDefault | retry.go:101-180 | `ExecWithRetry`, `QueryWithRetry`, `TxExecWithRetry` and `TxQueryWithRetry`: the same under the default configuration |
| RetryExecutor.RetryScan | retry.go:144-154 | `RetryRow.Scan` (and likewise `TxRetryRow.Scan`, retry.go:199-209) re-run query and scan per attempt and return exactly the executor's error |
| RetryExecutor.CapturedValueIsFromLastCall | retry.go:101-124 | the error returned is that of the call whose value is returned |
| RetryExecutor.TransactionUnit | retry.go:214-239 | definition of one attempt of the unit: the `GetDB` error, else the `Begin` error, else the function's error after a rollback, else the commit's result, with the steps taken and `db.Close` last once opened; stated by `TransactionUnitOutcome` |
| RetryExecutor.TransactionUnitOutcome | retry.go:214-239 | a failing function is rolled back and its own error returned, even if the rollback fails; otherwise the commit's result is returned; nothing is committed after a failure; an opened connection is closed last |
| RetryExecutor.WithTransactionRetry | retry.go:213-240 | the whole open → begin → function → commit unit is retried by the executor under the default configuration |
| RetryExecutor.TransactionBodyErrorNotRetried | retry.go:228-232 | a function failing with a non-lock error is rolled back and that error is returned after one attempt, with no sleep |
| Runner.DatabaseURLOf | migrator.go:35-41 | DatabaseURL if non-empty, else "sqlite://" + DatabasePath, else none; never empty |
| Runner.MigrationsSourceOf | migrator.go:43-49 | MigrationsSource if non-empty, else "file://" + MigrationsPath, else none; never empty |
| Runner.NewMigrator | migrator.go:31-71 | the database error exactly when no URL can be formed; the migrations error exactly when a URL exists but no source does; success exactly when both exist, the engine opens, and the database opens when a path is given; on success the engine gets the chosen source and URL, and a database handle exists exactly when a path is given |
| Runner.GetDatabaseFile | migrator.go:95-103 | DATABASE_FILE when non-empty, else "app.db"; never empty |
| Runner.NewRegistryMigrator | migrator.go:74-92 | fails only when opening the engine or the database fails, since the missing-file branch cannot be taken; a success opens "file://migrations" against "sqlite://" + the database file, with a database handle |
| Runner.RunErrorTextEndsWithCause | migrator.go:110-211 | each wrapped run error's message ends with the engine error it wraps |
| Runner.Up | migrator.go:111-117 | success exactly when the engine has no error or says "no change"; otherwise the wrapped error |
| Runner.Down | migrator.go:166-172 | runs `Steps(-steps)`; success exactly on no error or "no change"; otherwise the wrapped error |
| Runner.Goto | migrator.go:175-181 | `Migrate(version)`; success exactly on no error or "no change"; otherwise the error wrapped with the version |
| Runner.StepOperationsAgree | migrator.go:110-181 | for the same engine answer, `Up`, `Down` and `Goto` agree on success and wrap the same cause |
| Runner.Version | migrator.go:184-193 | "nil version" gives (0, false); no error gives the engine's version and dirty flag; any other error is wrapped |
| Runner.Force | migrator.go:196-202 | success exactly when the engine reports no error; otherwise wrapped with the version |
| Runner.Drop | migrator.go:205-211 | success exactly when the engine reports no error; otherwise wrapped |
| Runner.NoChangeFailsForceAndDrop | migrator.go:196-211 | "no change" is success for `Up` but an error for `Force` and `Drop` |
| Runner.UpAllErrorTextNamesSource | migrator.go:146-155 | an `UpAll` error message contains the failing source's name |
| Runner.Visit | migrator.go:130-159 | a source without a directory is skipped with no call; every call concerns this source; an error names it; a creation error is an engine or database open failure; a run error is a wrapped `Up` failure that is not "no change" |
| Runner.UpAllFrom | migrator.go:130-159 | definition of the loop from source i on: each source is visited in turn; the first visit that fails ends the run with its error and its calls; otherwise the calls of all visits in order; stated by `UpAllInOrder`, `UpAllStopsAtFirstFailure`, `UpAllReaches`, `UpAllClosesWhatItCreates` |
| Runner.RunAll | migrator.go:120-163 | `UpAll` as a whole: nothing registered gives nil and no call, otherwise the loop from the first source |
| Runner.VisitCalls | migrator.go:134-157 | within one visit, a migrator is made on the source's configuration exactly when it has a directory; `Up` runs exactly when the migrator was made; `Close` follows `Up` at once |
| Runner.UpAllInOrder | migrator.go:130-144 | all calls concern sources with a directory on their own configuration, in registration order |
| Runner.UpAllClosesRightAfterUp | migrator.go:152-157 | every `Up` is followed at once by closing that migrator, on both the success and the failure path |
| Runner.UpAllClosesWhatItCreates | migrator.go:146-157 | a source's migrator is closed exactly when its `Up` ran, which is exactly when it was made successfully |
| Runner.UpAllStopsAtFirstFailure | migrator.go:146-155 | the run succeeds exactly when no visited source fails; otherwise it returns the first failure's error, which names that source, and makes no call for a later source |
| Runner.UpAllReaches | migrator.go:130-159 | a migrator is made for a source exactly when it has a directory and no earlier source failed |
| Runner.UpAll | migrator.go:120-163 | with nothing registered, nil and no call; otherwise exactly the error and call trace of the `UpAll` specification |
| Runner.CloseFailures | migrator.go:308-324 | the failures are listed in the order database, migrate source, migrate database; each is present exactly when its resource exists and its close failed |
| Runner.Close | migrator.go:307-331 | nil exactly when no close fails; otherwise one error carrying every failure, in that order |
| Runner.CloseErrorText | migrator.go:326-328 | the message starts with "errors closing migrator: " and is followed by the failures' texts joined with ", " |
| Runner.CloseErrorTextListsEach | migrator.go:326-328 | the combined message contains the text of each failure |
| Runner.ExistingColumns | migrator.go:246-258 | a result for every row, in order, when every row scans; otherwise the first scan error |
| Runner.ScanErrorPersists | migrator.go:253-256 | a scan error stops the reading of rows: later rows do not change the result |
| Runner.ValidateTableColumns | migrator.go:238-275 | a failed table-info query or scan is reported; otherwise nil exactly when every expected column exists, else the first expected column that is missing |
| Runner.StatusFromLoad | migrator.go:286-298 | a source's status carries its name, whether it has a directory and an embedded bundle, and either the load error with count 0 (exactly when loading fails) or the number of migrations loaded |
| Runner.StatusIndex | migrator.go:285-301 | definition of the per-name map the loop fills: statuses stored under their names in order, a later one overwriting; stated by `StatusKeys`, `StatusEntries` |
| Runner.GetMigrationStatus | migrator.go:278-304 | it never fails; it reports the number of registered sources and the per-name map built from every source's status, a later source of the same name replacing an earlier one |
| Runner.StatusIndexStep | migrator.go:300 | each source's status is stored under its name, overwriting |
| Runner.StatusKeys | migrator.go:285-301 | the map has a key exactly for each registered name |
| Runner.StatusEntries | migrator.go:285-301 | each key holds the status of the last source registered under that name |
| Runner.StatusReportsLoad | migrator.go:286-298 | a status carries the source's name; its error is the load error, with count 0, exactly when loading fails, else the count of loaded migrations |
| Runner.StatusCoversEverySource | migrator.go:285-301 | every registered source's name is a key of the map |

## Left out

- The `sync.RWMutex` around the registry is left out. The registry is modelled sequentially.
- All `log.Printf` output is left out, along with `log.Printf` as the only effect of a skipped embed-only source in `UpAll`.
- `loadMigrationsFromEmbed` is a placeholder that returns an empty list, and it is modelled as such. No embedded file system is walked.
- `filepath.Glob` and `os.ReadFile` become the `FileSystem` value.
  - The glob is given as the list of paths it returns: a directory that is not there lists as empty, and a malformed pattern is an error.
  - A read either gives a content or fails.
  - The `filepath.Join` of directory and pattern is not modelled.
- `sort.Slice` is modelled as a functional insertion sort. Only its stated result is used: sorted by version and a permutation. Inside a single directory the result is unique (`ListsExactlyUnique`). Across sources with duplicate versions, the order `sort.Slice` leaves them in is not determined.
- `MigrationSource.Prefix` is carried but never read, as in the code.
- `MigrationRegistry.GetAllMigrations`: it does not distinguish a nil slice from an empty one.
- `MigrationRegistry.ValidateMigrationSequence`: it does not model the wrap of the `uint` counter after 2^64 migrations.
- `rand.Float64` is an input function from the attempt number to a fraction in [0, 1). The float arithmetic of the jitter is done in exact reals, then truncated toward zero.
- `time.Now`, `time.Since` and `time.Sleep` become an abstract clock.
  - A sleep lasts exactly its delay.
  - Any overrun is counted in the duration of the next call.
- RetryExecutor.RetryFrom, RetryExecutor.RetryDatabaseOperation and RetryExecutor.RetryCapturing (and the members built on them) compute each sleep from the intended, unbounded `BackoffDelay`. They do not follow the 64-bit wrap-around of the written code, so they neither make the 10ms or whole-budget sleeps after the negative wrap nor give up early once the product wraps to 0. That behaviour is modelled only by `BackoffDelayAsWritten`, `JitteredDelayAsWritten` and `SleepDelayAsWritten` and the lemmas about them.
- Runner.Down: it passes the unbounded `-steps` to `Steps`. Go's negation of an `int` wraps for `steps == math.MinInt64`, which it passes to `Steps` unchanged.
- `RetryExecutor.TotalSleepWithinBudget`: it is stated only for runs with at least one sleep. With a negative budget, a run without sleeps trivially has total 0.
- `QueryRowWithRetry` and `TxQueryRowWithRetry` only build a `RetryRow` without calling anything, so they have no behaviour to model. Their `Scan` is `RetryExecutor.RetryScan`.
- `GetDB`, `Begin`, `Rollback` and `Commit` in `WithTransactionRetry` are inputs per attempt. A failed rollback is only logged, as in the code.
- Everything inside golang-migrate (`migrate.New`, `Up`, `Steps`, `Migrate`, `Version`, `Force`, `Drop`, `Close`) is an input answer. So are `sql.Open` and the closing of `*sql.DB`.
- `NewMigrator` does not close the engine it created when `sql.Open` fails afterwards. Open resources are not tracked.
- The return value of `Close` inside `UpAll` is ignored by the code. It appears only as a `CloseCall` step.
- `os.Getenv("DATABASE_FILE")` is a parameter.
- `ValidateSchema` is left out. It runs fixed queries against `sqlite_master`, and its only output apart from query errors is logging.
- In `validateTableColumns`, the `PRAGMA table_info` query text and the six scanned columns are abstracted to a query failure or a list of rows. Each row is a column name or a scan error.
- `GetMigrationStatus` builds `map[string]interface{}` values. Here each status is a typed `SourceStatus`, and a load error is kept as the structured `LoadError` rather than its text.
- Error messages are structured values. Their text is modelled only where a property depends on it: the `UpAll` and `Close` messages, and the run errors' suffix.
- Tracing (`tracing.go`, `traced_db.go`), `connection.go` and `database.go` are outside the core and are not part of this model.

## Findings

| source | as written | input that shows it | evidently intended | confidence | as-written member | corrected member |
|---|---|---|---|---|---|---|
| retry.go:68-72 | `int64(config.BaseDelay) * int64(1 << uint(attempt))` wraps around 64 bits. The negative result passes the cap check. The `int64` sum `baseDelay + jitter` at retry.go:77 is then either negative, and replaced by `BaseDelay`, or wraps a second time to a huge positive value that is clamped to the remaining budget | the default configuration at attempt 40: 10_000_000 * 2^40 = 10_995_116_277_760_000_000, which wraps to -7_451_627_795_949_551_616. With a draw up to 0.975 the executor sleeps 10ms; with a draw from 0.976 on (for example 0.99) the sum falls below -2^63, wraps to about 9.1e18 and the executor sleeps all the rest of the 30s budget | min(BaseDelay * 2^attempt, MaxDelay), i.e. 1s ± 25% from attempt 7 on | not executed; the attempt number is reachable within the 30s budget only when calls are fast and jitter draws are low | RetryExecutor.BackoffDelayAsWritten, RetryExecutor.JitteredDelayAsWritten, RetryExecutor.SleepDelayAsWritten, RetryExecutor.BackoffOverflowsAtAttempt40 | RetryExecutor.BackoffDelay |
| retry.go:68-69 | `int64(config.BaseDelay) * int64(1 << uint(attempt))` becomes exactly 0 once 2^attempt carries 64 factors of 2 together with BaseDelay's own: at attempt 64 for any BaseDelay, earlier when BaseDelay is even. The jitter and the delay are then 0, and retry.go:89-92 returns the lock error with budget left | attempt 64 for any configuration; or `RetryConfig{30s, 1ms, 10ms, 0.25}` passed to `ExecWithRetryConfig` at attempt 58, since 1ms * 2^58 = 15625 * 2^64. With fast calls the sleeps before it are about 0.4s to 0.7s, so the code gives up with about 29s of the budget left. Under the defaults this first happens at attempt 57, after at least 32.5s of sleeps, so not within the 30s budget | the capped backoff min(BaseDelay * 2^attempt, MaxDelay), which is positive for a positive BaseDelay | not executed; reachable only with a caller's configuration and fast calls | RetryExecutor.BackoffVanishesFromAttempt64, RetryExecutor.BackoffVanishesAtAttempt58 | RetryExecutor.BackoffDelay |
