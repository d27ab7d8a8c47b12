# Verification of VoidLLM's stateful cores

A Dafny 4.11 model of the parts of VoidLLM where a fast, batched or concurrent form has to agree with a simple one, with
proofs that it does. `dafny verify dfyconfig.toml` checks all of it. Each module follows one source file or one small
group of them:

| file | subject |
|---|---|
| `breaker.dfy` | the circuit breaker and its probe reservations |
| `calendar.dfy`, `timestamps.dfy` | canonical timestamps: order, parsing, buckets, shape |
| `stored_timestamps.dfy` | the grammar of every stored form, which parsing inverts |
| `normalize_timestamps.dfy` | the batched rewrite of old timestamps |
| `migrate.dfy` | the migration runner, alone and against crashing rivals |
| `tombstone.dfy`, `deployments.dfy` | tombstoned soft delete and YAML reconciliation |
| `login_throttle.dfy`, `cooldown.dfy` | stores that evict |
| `audit_logger.dfy`, `redaction.dfy` | the audit logger and the redaction of bodies |
| `fallback.dfy` | the fallback check of the configuration |
| `codemode_schema.dfy` | depth scan, schema inference and rendering |
| `codemode_types.dfy` | the meaning of rendered types |
| `mcp_servers.dfy`, `mcp_access.dfy`, `mcp_server_cache.dfy`, `code_mode.dfy` | which MCP servers a caller sees, decided from SQL, from caches and from snapshots |
| `codemode_exec.dfy` | tool maps and the bounded dispatcher of one script execution |
| `common.dfy`, `text.dfy`, `json.dfy` | shared types, text order, JSON values |

Objects whose methods update them are classes, proved against a function that gives the new state from the old; what the
source promises is then proved of those functions over every run. Methods are atomic steps. Clocks, ids, failing
statements, upstream answers and map iteration orders are parameters or arbitrary choices.

Where the code and its comments part, the model follows the code:

- Text order is time order for the years -0001 to 9999, and fails on every stretch of time that meets those years and
  reaches out of them (`TextOrderIsTimeOrderIff`); what is written can be read back exactly for the years 0000 to 9999
  (`ParseInvertsFormat`). The comments in internal/db/timestamps.go say always.
- `EvictStale` also removes idle accounts that still have failures, which its comment on line 159 leaves out, and that
  gives the failures away; `SweepUnnoticedIffNoFailures` says exactly when a sweep is noticed, and `LoginsUnaffectedIff`
  when the login handler can notice.
- Redaction passes an array inside an array through, so a sensitive key in there is not masked; `SecretsAreHiddenIff` gives
  the exact condition and `NestedArrayShowsSecret` such a body.
- Below its depth limit the inference calls any value an object, not only objects (`DescribesIffOnlyObjectsBelow`,
  `FourArraysMisdescribed`). It looks at the first element of an array alone, so the type shown need not admit the very
  value it was inferred from (`MixedArrayIsNotAdmitted`); `InferredConformsIff` says which values it speaks for.
- The depth scan is called a conservative over-count. It is one exactly with safe keys and strings (`CaughtIffSafe`), and
  whatever the limit exactly with those that hold no more closing than opening brackets (`SafeAtEveryLimitIff`);
  `StringsCanHideNesting` gives a value it lets through at every limit.
- The probe limit of the breaker bounds the counter, and the probes in flight exactly if no earlier request is in flight
  when HalfOpen begins (`ProbeLimitHoldsIffNoneInFlight`, `ProbeLimitIsOverrun`).
- Events accepted after the drain of the logger found the channel empty are never written (`DrainFlushesAllAccepted`,
  `LateEventIsLost`).
- A row whose id is the empty string is never visited by the batched rewrite (`NormalizeColumn`).

Assumptions the theorems name: ids of models and deployments have one fixed length (36, as UUIDs); the unique index over
scope and alias and the primary key of `mcp_servers` hold (internal/db/migrations/0004_mcp_gateway.up.sql:43-45); stored
organisation and team ids are not empty, and for the cache keys hold no colon; clocks do not run back where a lemma says
`Clocked`; where a lemma says `AgreesOn` or `StoresAgree`, SQL and Go agree on the values stored, and on what these are
rewritten to; migration file names are distinct; server aliases hold no slash where a lemma says `SlashFree`
(internal/config/validate.go:16-18).

## Model

| member | source | states |
|---|---|---|
| CircuitBreaker.Breaker.constructor | internal/circuitbreaker/breaker.go:75-82 | a new breaker is Closed with nothing counted or reserved |
| CircuitBreaker.Breaker.Allow | internal/circuitbreaker/breaker.go:104-132 | the answer is `Admits` and the whole new state is that of one `Ask` step; an admitted request reserves a probe in HalfOpen |
| CircuitBreaker.Breaker.Permits | internal/circuitbreaker/breaker.go:148-162 | answers what Allow would answer and changes nothing |
| CircuitBreaker.Breaker.RecordSuccess | internal/circuitbreaker/breaker.go:167-181 | the whole new state after a success, per state, releasing at most one probe |
| CircuitBreaker.Breaker.RecordFailure | internal/circuitbreaker/breaker.go:192-215 | the whole new state after a failure: counted while Closed, reopening HalfOpen, ignored while Open |
| CircuitBreaker.Breaker.RecordNeutral | internal/circuitbreaker/breaker.go:235-242 | releases a probe in HalfOpen and changes nothing else |
| CircuitBreaker.ProbeCounterBounded | internal/circuitbreaker/breaker.go:84-132 | in every run with no Allow balanced twice the counter is never negative, and in HalfOpen it is at most the limit and at most the number of outstanding reservations |
| CircuitBreaker.NeverStarves | internal/circuitbreaker/breaker.go:88-95 | with nothing outstanding and the timeout over, a request is admitted in every reachable state, and its success ends in Closed with no failures |
| CircuitBreaker.FailuresAreTheStreak | internal/circuitbreaker/breaker.go:196-202 | the failure counter is the number of failures recorded while Closed since the last success that counted, and stays below the threshold in Closed |
| CircuitBreaker.TripsExactlyAtThreshold | internal/circuitbreaker/breaker.go:196-202 | Closed becomes Open exactly on the threshold-th failure of a streak, stamped with that call's time |
| CircuitBreaker.OpenIsFrozen | internal/circuitbreaker/breaker.go:112-115 | while Open and before the timeout, no run of calls changes anything or is admitted, late failures included |
| CircuitBreaker.VerdictEndsHalfOpen | internal/circuitbreaker/breaker.go:167-242 | from HalfOpen a success leads to Closed with no failures and a failure to Open stamped with its time; every other call stays, and every report gives one slot back |
| CircuitBreaker.HalfOpenLastsUntilVerdict | internal/circuitbreaker/breaker.go:167-242 | a stay in HalfOpen lasts, over any continuation, exactly as long as neither a success nor a failure is recorded |
| CircuitBreaker.FailedProbeReopens | internal/circuitbreaker/breaker.go:204-209 | after a failed probe recorded at f the circuit is Open as of f, and no continuation whose attempts come before f plus the timeout is admitted anything or changes anything |
| CircuitBreaker.SucceededProbeCloses | internal/circuitbreaker/breaker.go:172-181 | after a successful probe every request is admitted until as many failures as the threshold have been recorded |
| CircuitBreaker.InFlightIsOutstanding | internal/circuitbreaker/breaker.go:88-95 | where every Record call reports a request in flight, the requests in flight are as many as the reservations outstanding, and the run is balanced |
| CircuitBreaker.ProbeLimitHoldsIffNoneInFlight | internal/circuitbreaker/breaker.go:122-127 | on every run from a new breaker: the limit bounds the probes really in flight, in every continuation that stays HalfOpen, if and only if no earlier request is in flight when the stay begins |
| CircuitBreaker.ProbeLimitIsOverrun | internal/circuitbreaker/breaker.go:112-127 | every configuration with a threshold and a limit of at least one has a run on which more probes than the limit get in flight |
| Calendar.DayNumberCounts | internal/db/timestamps.go:21-23 | the day numbers behind formatting count calendar days one by one, leap years included |
| Calendar.CivilOrder | internal/db/timestamps.go:8-14 | calendar order of clock readings is the order of seconds |
| Calendar.CivilRoundTrip | internal/db/timestamps.go:21-23 | the calendar reading of a second and the second of a reading are inverse |
| Calendar.MonthLengths | internal/db/timestamps.go:21-23 | the lengths of the months by a formula of their own, and the day number of 1970-01-01 |
| Timestamps.FormatIsOrderEmbedding | internal/db/timestamps.go:8-23 | for years 0000 to 9999 stored texts compare, and are equal, exactly as the seconds they stand for |
| Timestamps.TextOrderIsTimeOrderIff | internal/db/timestamps.go:8-14 | a stretch of time that meets the years -0001 to 9999 sorts as text exactly if it lies within them |
| Timestamps.ParseInvertsFormat | internal/db/timestamps.go:47-59 | reading a formatted time gives back its second exactly for the years 0000 to 9999, and fails for all others |
| Timestamps.HourBucketTruncates | internal/db/timestamps.go:68-70 | the SQL hour bucket of a stored time is the stored form of the time truncated to the hour |
| Timestamps.DayBucketIsTheDay | internal/db/timestamps.go:61-66 | two stored times share a day bucket exactly when they fall on the same UTC day |
| Timestamps.ShapeIffInRange | internal/db/timestamps.go:72-76 | a formatted time matches the LIKE pattern exactly for the years 0000 to 9999, with or without case folding |
| Timestamps.ShapeUsesFirstLayout | internal/db/timestamps.go:39-45 | on a text of the canonical shape only the first of the five layouts can succeed |
| Timestamps.ShapeThatParsesIsCanonical | internal/db/timestamps.go:72-76 | a text of the canonical shape that parses is the canonical text of its time, so the LIKE filter skips nothing that needs rewriting |
| Timestamps.FoldedLikeIff | internal/db/timestamps.go:72-76 | with case folding the pattern matches what it matches in capitals without |
| StoredTimestamps.ReadsBackInAnyZone | internal/db/timestamps.go:24-59 | an instant written in any zone, in any of the old forms and to the nanosecond, is read back as that instant, for local years 0000 to 9999 |
| StoredTimestamps.WrittenIsRead | internal/db/timestamps.go:39-59 | every text of the grammar (local reading, optional fraction, zone) is read as local time less its offset, in UTC, with the first nine digits of the fraction |
| StoredTimestamps.ReadIsWritten | internal/db/timestamps.go:39-59 | every text that is read is one the grammar writes for the instant read |
| StoredTimestamps.ParseIffWritten | internal/db/timestamps.go:47-59 | a stored text is read as an instant if and only if it is a way to write that instant |
| NormalizeTimestamps.EventTable.NthAbove | internal/db/normalize_timestamps.go:83-147 | the batch bound query: the id that closes a batch of exactly offset+1 rows, or none when fewer are left |
| NormalizeTimestamps.EventTable.NormalizeBatch | internal/db/normalize_timestamps.go:163-199 | a batch is rewritten by SQL, or row by row if and only if a cast or the statement fails; counts the rows touched; it fails exactly if the fallback loses the database |
| NormalizeTimestamps.EventTable.NormalizeBatchFallback | internal/db/normalize_timestamps.go:211-281 | the fallback rewrites exactly the rows that parse and skips the others; it fails exactly if the database is lost within its statements, and has then rewritten one row for each UPDATE that went through |
| NormalizeTimestamps.EventTable.NormalizeColumn | internal/db/normalize_timestamps.go:83-147 | terminates; on success every row with a non-empty id is in exactly one batch, batches are full but the last, and the three counts are right; a batch falls back exactly if its UPDATE fails; on error full batches were rewritten and at most a part of one more |
| NormalizeTimestamps.VisitedRow | internal/db/normalize_timestamps.go:83-147 | each visited row belongs to one batch and holds that batch's rewrite of its old value |
| NormalizeTimestamps.GoRewriteIsPlain | internal/db/normalize_timestamps.go:211-281 | leaving rows of the canonical shape out loses nothing: the fallback rewrites as if it parsed every row |
| NormalizeTimestamps.SqlRewriteIsPlainIff | internal/db/normalize_timestamps.go:163-199 | where its cast does not fail, the SQL rewrite of a value is the plain one if and only if SQL and Go agree on that value |
| NormalizeTimestamps.RowIsPlainIff | internal/db/normalize_timestamps.go:83-147 | whatever the other rows hold, a complete run leaves a row plainly rewritten if and only if its batch fell back or SQL and Go agree on its value |
| NormalizeTimestamps.AgreementSurvives | internal/db/normalize_timestamps.go:24-34 | rewriting stored values SQL and Go agree on leaves values they agree on, for the years 0000 to 9999 |
| NormalizeTimestamps.PlainRewriteKeepsInstant | internal/db/normalize_timestamps.go:24-34 | the rewrite keeps the second, and its result is canonical exactly for the years 0000 to 9999 |
| NormalizeTimestamps.PlainRewriteKeepsWhatWasWritten | internal/db/normalize_timestamps.go:24-34 | an old text, in whatever form and zone, is rewritten to the canonical text of the instant it was written for; a text of no form stays |
| NormalizeTimestamps.PlainRewriteIdempotent | internal/db/normalize_timestamps.go:24-34 | rewriting twice is rewriting once |
| NormalizeTimestamps.RunIsPlainRewrite | internal/db/normalize_timestamps.go:83-147 | for any batch size and any batches that fell back, a complete run over values SQL and Go agree on is the plain per-row rewrite |
| NormalizeTimestamps.SecondRunChangesNothing | internal/db/normalize_timestamps.go:24-34 | a second complete run, whatever its batches, changes nothing |
| NormalizeTimestamps.InterruptedRunCompletes | internal/db/normalize_timestamps.go:83-147 | a run stopped anywhere and repeated leaves the table an uninterrupted one leaves |
| Migrations.Database.RunMigrations | internal/db/migrate.go:86-166 | an unrecorded stretch of names, in order, is applied and recorded; success means all of them, and a run stops only where a lookup or a migration may fail; a pending Go migration has then run the batched rewrite over all rows, and after a failure every row is old or rewritten |
| Migrations.Database.ApplyMigration | internal/db/migrate.go:151-160 | one migration: recorded with its effect or not at all for SQL, recorded after its rows for Go |
| Migrations.AtMostOnce | internal/db/migrate.go:185-218 | under any interleaving of runners and crashes only the lock holder works, and every SQL effect is committed at most once and recorded |
| Migrations.EffectsInNameOrder | internal/db/migrate.go:86-166 | from an empty database the recorded names are an initial stretch and the committed effects its SQL files, in name order |
| Migrations.SuccessRecordsAll | internal/db/migrate.go:86-166 | a run that returned success leaves every name recorded, for good |
| Migrations.Database.ApplyGo | internal/db/normalize_timestamps.go:35-56 | runs the batched rewrite: success leaves the rewritten table whatever earlier runs left behind, failure leaves every row old or rewritten |
| Migrations.GoMigrationSurvivesCrashes | internal/db/migrate.go:66-85 | over the committed batches and single rows of the normaliser, in every interleaving with crashes: once the Go migration is recorded the rows are the fully rewritten ones |
| Migrations.BatchProgress | internal/db/normalize_timestamps.go:163-199 | a committed batch, fallen back or not, leaves each of its rows rewritten from its first value and every other row as it was |
| Migrations.StepKeepsLocked | internal/db/migrate.go:89-109 | each step of each runner keeps the lock discipline and what the holder has dealt with |
| Migrations.LockHolderIsAtWork | internal/db/migrate.go:89-109 | in every interleaving whoever holds the lock is at work, so errors, crashes and ends of runs all free it |
| Tombstone.StripUndoesMangle | internal/db/tombstone.go:11-24 | stripping a tombstone gives back the value, whatever the value holds |
| Tombstone.MangleInjective | internal/db/tombstone.go:9-24 | tombstones of different values or rows differ, by the fixed length of ids, even when values hold the marker |
| Tombstone.MangledContainsMarker | internal/db/tombstone.go:26-32 | every tombstone holds the marker |
| Tombstone.StripLeavesLiveValues | internal/db/tombstone.go:11-24 | a value without the marker is left as it is |
| SoftDelete.Table.Create | internal/db/models.go:180-264 | refuses the marker, then a taken name, else adds a live row; on error the table is unchanged |
| SoftDelete.Table.Update | internal/db/models.go:349-503 | refuses the marker, an absent row or a taken name, else changes the row alone |
| SoftDelete.Table.Delete | internal/db/models.go:510-534 | marks a live row deleted under its tombstone, keeping the other columns |
| SoftDelete.WhoTakesAName | internal/db/tombstone.go:9-32 | in a clean table only a live row can stand in the way of a name, and nothing in the way of a tombstone |
| SoftDelete.DeleteNeverConflicts | internal/db/deployments.go:355-379 | deleting succeeds exactly for live rows; the unique column never conflicts |
| SoftDelete.FailsIff | internal/db/deployments.go:100-159 | which operation on a clean table fails, and how: reserved name, then absent row, then a live row of the scope with that name |
| SoftDelete.OnlyOneRowChanges | internal/db/deployments.go:100-159 | an operation that succeeds leaves every other row as it was and gives its own row just the columns it names |
| SoftDelete.StepKeepsClean | internal/db/deployments.go:100-159 | every operation keeps names unique, live names free of the marker and tombstones well formed |
| SoftDelete.RunStaysClean | internal/db/deployments.go:243-247 | so does every run of creates, renames and deletes from a clean table |
| SoftDelete.DeletedNameIsFree | internal/db/tombstone.go:9-17 | a deleted name can be created again at once with the deleted row still there |
| SoftDelete.StripRecoversLastName | internal/db/tombstone.go:11-24 | after any run every row, deleted or not, shows the name it was last given |
| Deployments.CreateDeployment | internal/db/deployments.go:100-159 | adds an active row with weight at least one, or reports why not |
| Deployments.ListDeployments | internal/db/deployments.go:178-203 | the live rows of a model, each once |
| Deployments.SyncYAMLDeployments | internal/db/models.go:848-956 | the reconciliation succeeds if and only if every configured name is live already, or free of the marker and not configured before; the table is then the `SyncResult` of the old one, and otherwise has the names before the first such one dealt with |
| Deployments.ValidIsAcceptable | internal/db/models.go:842-847 | a configuration with unique marker-free names is always carried out |
| Deployments.LiveAreTheConfigured | internal/db/models.go:842-847 | the live deployments are exactly the configured ones, every column as configured, with a weight of at least one; a new one is active |
| Deployments.NamesKeepTheirRows | internal/db/models.go:905-953 | a configured name keeps its row and id; one no longer configured is deleted and still shows its name |
| Deployments.SecondSyncChangesNothing | internal/db/models.go:842-847 | a second reconciliation changes nothing: no row is created or deleted |
| Deployments.ModelsDoNotInterfere | internal/db/models.go:698-840 | reconciling another model afterwards leaves the live deployments of a model as its own reconciliation left them |
| LoginThrottle.Throttle.Allow | internal/auth/login_throttle.go:76-119 | the answer is `Permits` on the old store and the whole new store is that of one call |
| LoginThrottle.Throttle.RecordFailure | internal/auth/login_throttle.go:125-140 | the whole new store after a failure |
| LoginThrottle.Throttle.RecordSuccess | internal/auth/login_throttle.go:145-156 | the whole new store after a success |
| LoginThrottle.Throttle.EvictStale | internal/auth/login_throttle.go:163-193 | removes exactly the stale entries of both stores |
| LoginThrottle.CounterIsCalls | internal/auth/login_throttle.go:83-94 | the stored count is the number of calls of Allow from the address in the minute, wherever sweeps fall |
| LoginThrottle.IpCheckIsExact | internal/auth/login_throttle.go:93-98 | the address check passes exactly while fewer than ten calls came before in the same minute |
| LoginThrottle.AtMostTenPerMinute | internal/auth/login_throttle.go:17-21 | at most ten calls per address and minute are let through in any run with a clock that does not run back |
| LoginThrottle.FiveFailuresLockOut | internal/auth/login_throttle.go:23-29 | five failures, each less than a lockout after the one before, refuse every attempt until fifteen minutes after the last, wherever sweeps fall |
| LoginThrottle.LockedAccountStaysRefused | internal/auth/login_throttle.go:100-118 | an account whose counter reached five stays refused until fifteen minutes after its last failure unless a success is recorded |
| LoginThrottle.RefusedForCause | internal/auth/login_throttle.go:76-119 | no attempt is refused unless the address used up its minute or the account failed five times since its last success, the last time under fifteen minutes ago |
| LoginThrottle.SweepUnnoticedIffNoFailures | internal/auth/login_throttle.go:163-193 | after any run of calls, a sweep changes no answer an account gets in any run that follows if and only if it takes no failures from it; dropped address counts never matter |
| LoginThrottle.StaleFailuresHappen | internal/auth/login_throttle.go:179-190 | a run on which a sweep does take a failure |
| LoginThrottle.SweepTakesAccountIff | internal/auth/login_throttle.go:178-192 | a sweep takes an account exactly if nothing counts against it or its last failure is more than half an hour old |
| LoginThrottle.SweepKeepsAddressIff | internal/auth/login_throttle.go:167-176 | after a sweep there is an entry for just the addresses with an attempt in the current minute |
| LoginThrottle.NothingWithoutEmail | internal/auth/login_throttle.go:100-157 | calls without an email leave no trace in the accounts |
| LoginThrottle.LoginsUnaffectedIff | internal/api/admin/auth.go:103-137 | where, as in the login handler, a failure is recorded only after an attempt was let through, a sweep is noticed if and only if it takes one to four failures |
| Cooldown.Registry.Mark | internal/cooldown/registry.go:52-69 | stores the deadline of a positive duration and evicts every deadline that has passed |
| Cooldown.Registry.Cooling | internal/cooldown/registry.go:76-87 | answers as a map that never evicts and keeps the last positive mark would, unless a later mark found the entry expired, which under a clock that does not run back makes no difference |
| Cooldown.StoredIsLastUnlessOvertaken | internal/cooldown/registry.go:63-69 | what is stored for a key is its last deadline, unless a later mark found it expired, whatever the clock does |
| Cooldown.StoredLiesAhead | internal/cooldown/registry.go:61-69 | right after a mark every stored deadline lies ahead |
| Cooldown.AnswersAsIfNothingWasEvicted | internal/cooldown/registry.go:39-51 | under a clock that does not run back eviction never changes an answer |
| Cooldown.EvictionNoticedIffClockWentBack | internal/cooldown/registry.go:52-87 | without that, an answer differs exactly when the entry was evicted and the clock has gone back before its deadline |
| AuditLogger.Logger.constructor | internal/audit/logger.go:30-49 | a buffer size that is not positive becomes 500, and the logger starts empty |
| AuditLogger.Logger.Log | internal/audit/logger.go:68-79 | puts the event into the channel if there is room and drops it otherwise, without blocking |
| AuditLogger.Logger.Receive | internal/audit/logger.go:108-112 | moves one event to the batch and writes the batch once it is full |
| AuditLogger.Logger.Tick | internal/audit/logger.go:114-115 | writes the pending batch, if any |
| AuditLogger.Logger.Drain | internal/audit/logger.go:117-127 | the drain loop with producers logging at every turn: a possible sequence of steps that ends once they stop, with everything accepted flushed |
| AuditLogger.Logger.FlushBatch | internal/audit/logger.go:136-179 | a batch is inserted entirely or not at all, and is given up when its transaction fails |
| AuditLogger.EveryStateConserves | internal/audit/logger.go:84-130 | in every state of every interleaving the accepted events are, in order, the flushed batches, the pending batch and the channel; the table is the committed batches; buffers and batches keep their bounds |
| AuditLogger.TickFlushesAllReceived | internal/audit/logger.go:114-115 | after a tick nothing is pending, and all that was accepted is flushed or in the channel; if it and every transaction before it committed, the table holds all that was received |
| AuditLogger.EveryBatchHasItsCause | internal/audit/logger.go:106-127 | every batch was written by a tick, by the end of the drain, or by the event that filled it, and commits if that transaction did |
| AuditLogger.LogDropsIffFull | internal/audit/logger.go:75-86 | over any run an event is accepted exactly if fewer than the capacity were accepted and not yet received when it was logged |
| AuditLogger.InExactlyOneBatch | internal/audit/logger.go:92-104 | every flushed event is in exactly one batch, at its own place |
| AuditLogger.DrainFlushesAllAccepted | internal/audit/logger.go:57-63 | when the loop has returned, exactly what was accepted before the drain found the channel empty was flushed; later events stay in the channel |
| AuditLogger.TableIsCompleteIffNothingFailed | internal/audit/logger.go:92-130 | the table ends with every accepted event, in order, if and only if no transaction failed and nothing was accepted after the drain |
| AuditLogger.LateEventIsLost | internal/audit/logger.go:117-127 | a run in which an event is accepted after the drain and never written |
| Redaction.RedactMap | internal/audit/middleware.go:284-312 | the loop computes the redacted object: sensitive fields masked, zero values and empty objects dropped, arrays kept |
| Redaction.RedactSlice | internal/audit/middleware.go:318-328 | object elements are redacted, all others passed through |
| Redaction.RedactionIsIdempotent | internal/audit/middleware.go:284-328 | redacting a redacted body changes nothing |
| Redaction.FieldsStayVisible | internal/audit/middleware.go:246-253 | along any path, through objects and arrays: a sensitive field is there with its value masked, a plain field unchanged unless blank, an array with all its elements, an object exactly if anything of it is left; elements of arrays stay, and within nested arrays everything does |
| Redaction.RedactionTidies | internal/audit/middleware.go:284-315 | nothing is added, and no field that is left is blank or an empty object |
| Redaction.SensitiveIff | internal/audit/middleware.go:13-42 | a key is sensitive exactly if it spells one of the seven names as a whole, in whatever case |
| Redaction.SealedBodiesRedactAlike | internal/audit/middleware.go:246-253 | bodies that differ only under sensitive keys, of any case and at any depth, redact to the same unless a sensitive key sits in an array inside an array |
| Redaction.SecretsAreHiddenIff | internal/audit/middleware.go:318-328 | the redacted body tells nothing about sensitive values if and only if no sensitive key sits in an array directly inside an array |
| Redaction.NestedArrayShowsSecret | internal/audit/middleware.go:318-328 | a body with a password in an array in an array, which redaction leaves whole |
| Redaction.FlatBodiesAreSealed | internal/audit/middleware.go:284-328 | a body with no array directly inside an array meets that condition |
| Fallback.BuildIndex | internal/config/validate.go:422-429 | the lookup table over names and aliases |
| Fallback.LastModelAnswers | internal/config/validate.go:422-429 | a name leads to the last model that has it as name or alias, and to none if no model has |
| Fallback.Walk | internal/config/validate.go:444-461 | terminates, and returns the first name met twice exactly when the chain meets one twice |
| Fallback.CheckFallbacks | internal/config/validate.go:430-462 | reports at most one error per model, in order: self reference, unknown target or cycle |
| Fallback.CycleReportedIffRevisits | internal/config/validate.go:444-461 | a cycle is reported for a model exactly when its chain meets a name twice and the model does not name itself |
| Fallback.ErrorKindIff | internal/config/validate.go:430-443 | a self reference is reported exactly for a fallback to the own name, an unknown target exactly for one no model answers to |
| Fallback.CycleNamesFirstMetAgain | internal/config/validate.go:444-461 | the name reported with a cycle is the first the chain meets again |
| Fallback.ErrorsInOrder | internal/config/validate.go:430-462 | the errors come in the order of the models, one for each that is not sound |
| Fallback.NoErrorIffSound | internal/config/validate.go:430-462 | no error is reported exactly when every fallback is absent, or another known model whose chain never meets a name twice |
| Fallback.LongChainsRevisit | internal/config/validate.go:444-461 | a chain of as many hops as there are models meets some name twice |
| Fallback.ChainsEndWithinModels | internal/config/validate.go:422-462 | without errors every chain ends within one hop fewer than there are models, at a model without a fallback |
| Fallback.RevisitsIffEndless | internal/config/validate.go:444-461 | with unique model names a chain meets a name twice exactly when it never ends |
| CodeModeSchema.ExceedsMaxDepth | internal/mcp/codemode_schema.go:53-69 | the running count exceeds the limit somewhere in the text |
| CodeModeSchema.CaughtIffSafe | internal/mcp/codemode_schema.go:49-52 | at a given limit, every tree that holds a text among safe ones is rejected when it nests too deep if and only if that text is safe: the scan passes the limit in it or leaves it no lower than it came |
| CodeModeSchema.SafeAtEveryLimitIff | internal/mcp/codemode_schema.go:49-52 | a text is safe at every limit if and only if it holds no more closing than opening brackets |
| CodeModeSchema.StringsCanHideNesting | internal/mcp/codemode_schema.go:13-17 | at every limit of at least one, the 64 of the source included, a string of one closing bracket hides a value that nests deeper |
| CodeModeSchema.ExceedsIffNestsDeeper | internal/mcp/codemode_schema.go:53-69 | on printed JSON whose strings and keys hold no bracket the scan is true exactly when the value nests deeper than the limit |
| CodeModeSchema.InferValue | internal/mcp/codemode_schema.go:71-104 | computes the inferred schema, with the depth and property limits |
| CodeModeSchema.DescribesIffOnlyObjectsBelow | internal/mcp/codemode_schema.go:30-35 | the inferred schema describes its value if and only if everything cut off at the depth limit is an object |
| CodeModeSchema.FourArraysMisdescribed | internal/mcp/codemode_schema.go:30-35 | four arrays around anything but an object get a schema that does not describe them |
| CodeModeSchema.RenderSchema | internal/mcp/codemode_schema.go:128-186 | computes the rendering of any schema, well formed or not |
| CodeModeSchema.RenderingIsHarmless | internal/mcp/codemode_schema.go:117-123 | the rendering of any schema holds only identifier characters, blanks and a few marks, whatever its property names |
| CodeModeSchema.CapNeverReached | internal/mcp/codemode_schema.go:22-27 | for values of any size the depth cap of the renderer never changes the rendering of an inferred schema |
| CodeModeTypes.ReadsWritten | internal/mcp/codemode_schema.go:124-186 | a reader of the type grammar inverts its writer: the rendered text has one meaning |
| CodeModeTypes.WritesRead | internal/mcp/codemode_schema.go:124-186 | the reader reads nothing but what the writer writes |
| CodeModeTypes.ScalarsNeedTheirKeyword | internal/mcp/codemode_schema.go:134-139 | a string, number or boolean is admitted by its own keyword or by any, and by no other text |
| CodeModeTypes.RenderingMeans | internal/mcp/codemode_schema.go:124-186 | the rendering of any schema is the text of a type that admits just what the schema promises; fields come in the order of their names, none longer than the limit |
| CodeModeTypes.RenderingAdmitsIff | internal/mcp/codemode_schema.go:124-186 | the rendered text, read as a type, admits a value if and only if the schema does below the cap, leaving out keys that are no identifiers and types that are too long |
| CodeModeTypes.ConformingIsAdmitted | internal/mcp/codemode_schema.go:107-123 | every value of a schema is admitted by its rendering |
| CodeModeTypes.WrittenOutIsExact | internal/mcp/codemode_schema.go:107-123 | and no other value, if nothing of the schema is left out |
| CodeModeTypes.InferredConformsIff | internal/mcp/codemode_schema.go:72-105 | a value conforms to the schema inferred from another one if and only if it looks like that one: first elements of arrays, fields, and below the depth limit whether it is an object |
| CodeModeTypes.LaterResultsAreAdmitted | internal/mcp/codemode_schema.go:107-116 | the type shown after one result admits every later result that looks like it |
| CodeModeTypes.DescribedIsAdmitted | internal/mcp/codemode_schema.go:107-116 | where a schema describes a value, its rendering admits that value with every array cut down to its first element |
| CodeModeTypes.MixedArrayIsNotAdmitted | internal/mcp/codemode_schema.go:86-90 | an array of a number and a string is described by its schema and not admitted by its rendering |
| CodeModeTypes.NamesAreKept | internal/mcp/codemode_types.go:181-195 | the keys that are kept are those made of letters, digits and underscores with no digit first |
| MCPServers.ScopedPickIsUnique | internal/db/mcp_servers.go:255-288 | under the unique index the scoped lookup has one possible answer |
| MCPAccess.CheckFollowsPolicy | internal/db/mcp_access.go:195-226 | a check that does not fail answers: listed for the organisation, and not missing from a configured list of the team or the key; it fails exactly on the first read that fails before a list has refused |
| MCPAccess.SetAccess | internal/db/mcp_access.go:40-67 | replaces one entity's list by the given one and leaves every other as it was; a repeated server fails and changes nothing |
| MCPAccess.LoadAccessMap | internal/db/model_access.go:247-266 | groups the rows by entity |
| MCPAccess.GroupedIsAllowed | internal/db/model_access.go:247-266 | an entity is mapped to what it is allowed, and absent when that is nothing |
| MCPAccess.MCPAccessCache.Load | internal/proxy/mcp_access_cache.go:36-50 | the cache holds the tables' lists as sets |
| MCPAccess.MCPAccessCache.Check | internal/proxy/mcp_access_cache.go:61-88 | the cached check gives the answer of the tables it was loaded from |
| MCPServerCaching.MCPServerCache.LoadAll | internal/proxy/mcp_server_cache.go:60-71 | replaces the cache by the given servers under their keys |
| MCPServerCaching.LastLoadedStays | internal/proxy/mcp_server_cache.go:60-73 | where keys repeat, the last server loaded stays |
| MCPServerCaching.MCPServerCache.Get | internal/proxy/mcp_server_cache.go:31-55 | team, then organisation, then global |
| MCPServerCaching.MCPServerCache.List | internal/proxy/mcp_server_cache.go:100-108 | every cached server once, in any order |
| MCPServerCaching.KeysAreInjective | internal/proxy/mcp_server_cache.go:112-122 | cache keys tell alias, organisation and team apart even when aliases hold colons |
| MCPServerCaching.CacheListsActiveRows | internal/proxy/mcp_server_cache.go:60-71 | loading the active rows loses none of them to a shared key |
| MCPServerCaching.LookupIsScopedPick | internal/proxy/mcp_server_cache.go:31-55 | the cached lookup returns the very row the scoped SQL query selects |
| CodeMode.ResolveServersByAlias | internal/app/code_mode.go:186-210 | the loop computes one winner per alias, in order of first appearance |
| CodeMode.ResolvedAreTheWinners | internal/app/code_mode.go:186-210 | the result holds exactly the servers nothing in the list goes before |
| CodeMode.WinnerIsFirst | internal/app/code_mode.go:186-210 | the winner of an alias is the first in the list with its scope |
| CodeMode.AliasesAppearInOrder | internal/app/code_mode.go:186-210 | aliases come in the order they first appear in |
| CodeMode.ResolutionIgnoresOrder | internal/app/code_mode.go:186-210 | for one caller's servers the result does not depend on the order of the list, and holds no alias twice |
| CodeMode.VisibleMCPServersForCaller | internal/app/code_mode.go:582-604 | the loop computes the caller's visible servers |
| CodeMode.VisibleKeepsOrder | internal/app/code_mode.go:582-605 | the visible servers stay in the order of the list |
| CodeMode.QueriesSelectTheVisible | internal/app/code_mode.go:563-577 | the filter in Go selects exactly what the three list queries select under SQL's three truth values |
| CodeMode.VisibleIsUnambiguous | internal/app/code_mode.go:186-226 | what one caller sees holds no two servers of the same alias and priority |
| CodeMode.AccessibleServers | internal/app/code_mode.go:107-180 | computes the winners the caller may use; a failed access check drops the server |
| CodeMode.AccessibleKeepsOrder | internal/app/code_mode.go:140-180 | the servers kept of the winners stay in their order |
| CodeMode.AliasWinnerForCaller | internal/app/code_mode.go:615-623 | the winner with the id among the caller's visible servers |
| CodeMode.CheckAccess | internal/app/code_mode.go:754-765 | walks the cache in any order and gives the live or the snapshot answer of every order of the list |
| CodeMode.AnswerIgnoresOrder | internal/app/code_mode.go:754-765 | neither the live nor the snapshot answer depends on the order of the list |
| CodeMode.LiveAnswerIffShown | internal/app/code_mode.go:607-667 | the live checker accepts exactly the servers nothing visible goes before and the decision admits |
| CodeMode.WithoutAccessCacheIff | internal/app/code_mode.go:645-667 | without an access cache only servers that need no access check are accepted |
| CodeMode.ListingIsWhatIsShown | internal/app/code_mode.go:107-180 | the Code Mode listing is exactly the servers the caches show, less those whose access check failed |
| CodeMode.CheckerAgreesWithListing | internal/app/code_mode.go:732-753 | the live checker accepts a server id exactly when the listing holds that server, for any order of query and cache results |
| CodeMode.SnapshotAnswersForThePast | internal/app/code_mode.go:700-730 | after one server was edited, moved, renamed, switched off or removed, the snapshot gives the answer the live checker gave before |
| CodeMode.NoListedServerIsShadowed | internal/app/code_mode.go:123-140 | every listed server is the one row the scoped lookup can return for its alias |
| CodeMode.ListedServerIsCached | internal/app/code_mode.go:123-140 | and the row the proxy's cache returns |
| CodeMode.ListingIgnoresOrder | internal/app/code_mode.go:107-180 | the listing does not depend on the order of the query's rows and holds no alias twice |
| CodeModeExec.BuildToolMaps | internal/app/code_mode.go:247-307 | per alias: shut out if its blocklist could not be read, else its blocked names, its server id and its unblocked cached tools |
| CodeModeExec.MapsHoldTheServers | internal/app/code_mode.go:247-307 | what the maps hold of each server: shut out exactly if its blocklist could not be read, refused exactly the blocked names, offered exactly the cached names not among them |
| CodeModeExec.MapsHoldNothingElse | internal/app/code_mode.go:247-307 | and of aliases of no server nothing |
| CodeModeExec.UnblockedKeepsOrder | internal/app/code_mode.go:284-307 | offered tools stay in the order of the cache |
| CodeModeExec.BuildDispatch | internal/mcp/codemode_exec.go:146-175 | every offered tool has an entry and every entry is an offered tool of that key, whatever the order of the map |
| CodeModeExec.Execution.CallTool | internal/mcp/codemode_exec.go:179-240 | one call of the script: limit, arguments, unknown tools, log and upstream call |
| CodeModeExec.EntryIsServed | internal/app/code_mode.go:259-307 | every dispatch entry leads to an unblocked cached tool of a wanted server and passes the tool caller's own check |
| CodeModeExec.UpstreamCallsAreServed | internal/app/code_mode.go:321-329 | in any script every upstream call is for such a tool, and the second defence never stops anything |
| CodeModeExec.DispatchIsExactIff | internal/mcp/codemode_exec.go:203-204 | with server aliases free of slashes, a call that finds an entry goes to the server and tool it names if and only if the alias it names holds no slash |
| CodeModeExec.CallsGoWhereNamed | internal/mcp/codemode_exec.go:179-240 | in any script, with such aliases, every upstream call comes from an event with its key, and goes to the very server and tool named there unless the alias named holds a slash |
| CodeModeExec.ExcludedServersGetNoCall | internal/app/code_mode.go:262-282 | a server whose blocklist could not be read gets no call in any script |
| CodeModeExec.ReachedAreTheValidAdmitted | internal/mcp/codemode_exec.go:179-214 | the tool caller is handed, in the order of the script, one call for each well-formed event within the limit that names a tool on offer, for the server and tool behind its key and with the arguments it gives, {} if empty; so with a positive limit at most so many |
| CodeModeExec.UpstreamFollowsScript | internal/mcp/codemode_exec.go:179-220 | and so, one for one and in order, are the upstream servers |
| CodeModeExec.LogsFollowScript | internal/mcp/codemode_exec.go:207-231 | the log holds, in order, one line for each well-formed event within the limit: server, tool and whether the call succeeded, or what it names and a failure |
| CodeModeExec.CallsReachListedServers | internal/app/code_mode.go:234-332 | from the table to the wire: every upstream call goes to a Code Mode server the caller may use, the very row the scoped lookup finds |

## Left out

- Migrations.AtMostOnce: speaks of runners under the PostgreSQL advisory lock; SQLite runs without one, and only the single runner of `RunMigrations` covers it.
- Migrations.GoMigrationSurvivesCrashes: one table of events stands for the two the migration rewrites one after the other; the new column default and the pass over `api_keys.expires_at` are left out.
- Calls that interleave inside one method, such as a sweep between the check of a throttle entry and its deletion: each method is one step.
- LoginThrottle.LoginsUnaffectedIff: the failures it adds belong to attempts let through after the sweep; one let through before and recorded after it falls under `SweepUnnoticedIffNoFailures`.
- The nil receiver of the cooldown registry, for which both methods do nothing.
- Normalisation of e-mails, which is a parameter of the throttle.
- Ids and timestamps of inserted audit rows; any failing statement stands for a failing transaction.
- Encrypted keys and the columns nothing depends on, in all tables; database errors of the reconciliation other than conflicts.
- Decoding and encoding of JSON; key case is folded for ASCII and the two other characters whose lower case is an ASCII letter.
- The QuickJS runtime, unwrapping of tool results and the storing of inferred schemas: a script is any sequence of calls.
- Creating, updating and deleting MCP server rows: their uniqueness is the database's own index.
- The delivery loop that asks the access checker; search, type generation and blocklist counts of Code Mode, which filter the same listing.
- Handlers, routes, transports, licences, metrics, Redis, encryption, tokens and password hashes: plumbing without model content.
- internal/router, the rest of internal/proxy and internal/ratelimit: not part of this model.
