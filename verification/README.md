# A verified model of JozmozDNS's accounting and state machines

JozmozDNS is a Go daemon that resolves names for paying subscribers. This project models, in
Dafny 4.11, the parts of it that keep books or keep promises across failures and restarts, and
proves what those parts are relied on for. `dafny verify dfyconfig.toml` checks everything.

| files | what they model |
|---|---|
| `Calendar`, `TrafficCycle`, `TrafficSweep`, `TrafficEffects` | Gregorian month arithmetic, the boundaries of a quota cycle, the catch-up walk, one sweep over all accounts; what each operation on the books changes, field by field |
| `Traffic`, `TrafficRuns` | the byte ledger, the store, flush, roll-over and manual reset as methods; then every interleaving of their atomic steps, with the copy of the records that the resolver enforces against |
| `ClientIndex` | the five in-memory maps of shared record pointers, against the full scan they replace |
| `LimitListener`, `Session`, `LoginAttempts` | the connection cap, dashboard sessions, the login lockout |
| `Latency`, `LatencyRuns` | latency quantiles from bucket counts; then many goroutines observing while one takes a snapshot |
| `Sealing`, `SealedClients`, `SealedSettings`, `SealedStore`, `PasswordRecord` | records encrypted at rest, the migrations that seal old cleartext, the printed password record |
| `TwoFactor`, `BootMigration`, `GameHistory` | state machines that persist, roll back, crash and start again |
| `Prelude`, `Text` | optional values, 64-bit counters, white space, case, decimal printing |

How it is put together:

- An object whose methods change its fields is a class here, with the same branches and the same
  loops. Each method is tied to a small function of the old state, and the promises are lemmas
  about those functions, over single calls, over whole runs, or over every interleaving.
- Concurrency is a step relation: one lock region or one atomic operation is one step, and a
  lemma about runs quantifies over every finite sequence of enabled steps.
- Failing reads, failing saves, transactions that roll back and crashes are inputs. So are the
  clock (an integer number of nanoseconds since 0001-01-01 UTC, where 0 is Go's zero time),
  random bytes, and the order in which maps are walked.
- AES-GCM, the blind index, PBKDF2, TOTP checking and JSON are function parameters. What is
  assumed of them is a predicate (`Lawful`, `EnvLawful`, `JsonLawful`) the lemmas require: opening
  inverts sealing under the same key, fingerprints are injective, decoding inverts encoding.
  `Sealing.LawfulCipher`, `SealedClients.LawfulEnv` and `SealedSettings.LawfulJson` give instances.
  A client record and a profile snapshot are in their parsed form.

Where a promise turned out to hold only under a condition, the condition is proved exact:

- Sweeping at t1 and again at t2 equals one sweep at t2 unless the first found no usable origin
  and gave the account one that is still usable at t2 (`TrafficCycle.DowntimeDoesNotMatter`).
- A sweep from an account's current schedule brings it to its current period if and only if its
  stored count is at most `maxCatchUpCycles` or it has no origin yet (`TrafficCycle.SweepCatchesUp`).
- A sweep decides from the list it was given, not from the record it re-reads, and the list is read
  before the lock is taken. `TrafficSweep.ResetsEarlyIff` says exactly which accounts lose usage,
  and which of them before their own boundary; `TrafficSweep.StaleListResetsEarly` is one.
- Quotas are enforced against the resolver's copy of a record. The verdict is right for every limit
  if and only if that copy shows the stored usage (`TrafficRuns.EnforcementIsExactIff`), and
  `TrafficRuns.CopyGoesStaleIff` lists the steps after which it no longer does. A failed rebuild
  after a flush serves an account past its limit (`TrafficRuns.FailedReloadServesOn`); between a
  sweep and its rebuild an account stays cut off (`TrafficRuns.SweepCutsOffUntilItsReload`).
- The log line at `internal/bootstrap/migrate.go:59` says a failed marker write makes the migration
  re-run harmlessly. The daemon runs on, and an operator who lets everyone in meanwhile is
  overridden by the next start (`BootMigration.FailedMarkerOverridesTheOperator`,
  `BootMigration.OpenSettingSurvivesIff`). After a crash between the two writes it is harmless, as
  the comment at lines 27-28 says (`BootMigration.CrashIsHarmless`).
- `ConfirmTOTP` rolls back to constants. That is what was there before exactly while an open
  enrollment excludes a stored factor, which needs a non-blank confirmation time
  (`TwoFactor.AgreementIsLostIff`, `TwoFactor.BlankStampParts`).
- A wrapped listener that yields a connection after it was closed, to a call that took no slot,
  would strand a Close (`LimitListener.StepKeepsTheCountIff`,
  `LimitListener.DishonestListenerStrandsAClose`).
- The last `else` branch of `deindexLocked` never deletes anything for a record on file: the two
  address tables always have the same keys (`ClientIndex.ListShrinks`).

## Model

| member | source | states |
|---|---|---|
| `Calendar.DaysInMonthIsTheMonthLength` | internal/service/traffic_cycle.go:55-57 | day zero of the next month is the number of days of the Gregorian month, leap years included |
| `Calendar.MonthStartIsFirstOfMonth` | internal/service/traffic_cycle.go:55-57 | adding up month lengths agrees, for every month past or to come, with a closed formula that knows none |
| `Calendar.GregorianCycle` | internal/service/traffic_cycle.go:55-57 | a year has 366 days exactly when 4 divides it and 100 does not or 400 does; four centuries have 146097; the Unix epoch is day 719162 |
| `Calendar.GoDivTruncates` | internal/service/traffic_cycle.go:69-88 | the remainder is smaller than the divisor and has the sign of the dividend |
| `Calendar.DateReadsBack` | internal/service/traffic_cycle.go:69-88 | the year, month and day put into a date are the ones read out of it, whatever the year's sign |
| `Calendar.AddMonthsLandsInTheMonth` | internal/service/traffic_cycle.go:59-88 | for every instant and every integer number of months, with truncating division: the month index moves by exactly that many, the day is the anchor's or the month's last, the time of day is kept |
| `Calendar.AddMonthsIncreases` | internal/service/traffic_cycle.go:59-88 | more months from one anchor is strictly later, in either direction |
| `Calendar.AddDaysIsWholeDays` | internal/service/traffic_cycle.go:107-113 | adding n days through the calendar is adding n times 24 hours at a fixed offset |
| `Calendar.ChainedClampingOnlyLosesDays` | internal/service/traffic_cycle.go:59-68 | stepping from boundary to boundary is never later than measuring from the anchor, and equal exactly when the middle month does not clip a day the last month still has |
| `TrafficCycle.NormalizedNamesAreCanonical` | internal/service/traffic_cycle.go:38-50 | a cycle name that was accepted and stored reads back as itself |
| `TrafficCycle.AcceptedNames` | internal/service/traffic_cycle.go:38-50 | exactly the four names are accepted, in any case and with any white space around them |
| `TrafficCycle.BoundaryExists` | internal/service/traffic_cycle.go:90-117 | a boundary is defined exactly for a set anchor, a recurring cycle and a count within the bound |
| `TrafficCycle.BoundariesIncrease` | internal/service/traffic_cycle.go:90-117 | boundaries of one anchor strictly increase and all lie after it |
| `TrafficCycle.DailyAndWeeklyBoundaries` | internal/service/traffic_cycle.go:103-117 | daily boundary n is n + 1 times 24 hours after the anchor, weekly boundary n is 7 times that, and is daily boundary 7n + 6 |
| `TrafficCycle.MonthlyBoundaryRecoversTheAnchorDay` | internal/service/traffic_cycle.go:90-117 | the n-th monthly boundary is n + 1 months on, at the anchor's time of day, and on the anchor's day exactly where the month has it |
| `TrafficCycle.DueTrafficResets` | internal/service/traffic_cycle.go:129-139 | the catch-up loop computes the number of boundaries that the specification counts |
| `TrafficCycle.DueIsTheFirstUnpassed` | internal/service/traffic_cycle.go:119-139 | below the bound, the answer is k if and only if boundary count + k is ahead and every boundary before it has passed |
| `TrafficCycle.PassedIsInitial` | internal/service/traffic_cycle.go:119-139 | passed boundaries form an initial stretch |
| `TrafficCycle.DecideByBoundaries` | internal/service/traffic_cycle.go:163-209 | leave, re-anchor or roll over, each decided by which single boundaries have passed |
| `TrafficCycle.VerdictByBoundaries` | internal/service/traffic_cycle.go:163-209 | for every schedule: re-anchored exactly with a cycle and no usable origin, rolled over exactly if its boundary has passed and the walk ends |
| `TrafficCycle.SweepCatchesUp` | internal/service/traffic_cycle.go:155-209 | after a sweep the next boundary is strictly ahead if and only if the account had no anchor or a count within the bound; the bound on the count is kept |
| `TrafficCycle.SweepSettles` | internal/service/traffic_cycle.go:155-209 | the decision for a swept account at the same instant is to leave it |
| `TrafficCycle.RollOverIsEarned` | internal/service/traffic_cycle.go:163-209 | every credited boundary has passed and the next one has not |
| `TrafficCycle.DowntimeDoesNotMatter` | internal/service/traffic_cycle.go:119-139 | sweeping at t1 then t2 equals sweeping at t2, if and only if t1 gave no new origin or t2 finds that origin unusable; both told by single boundaries |
| `Traffic.TrafficLedger.Counter` | internal/service/traffic.go:40-55 | creates a zero counter for a new account and changes nothing else |
| `Traffic.TrafficLedger.Add` | internal/service/traffic.go:57-62 | adds with 64-bit wrap-around; blank accounts and zero amounts change nothing |
| `Traffic.TrafficLedger.Get` | internal/service/traffic.go:64-74 | what is pending, zero for an unknown account |
| `Traffic.TrafficLedger.Reset` | internal/service/traffic.go:78-85 | clears one counter |
| `Traffic.TrafficLedger.Take` | internal/service/traffic.go:91-102 | returns what was pending and clears that counter only |
| `Traffic.TrafficLedger.Drain` | internal/service/traffic.go:107-118 | returns exactly the positive counters and leaves every counter in place at zero |
| `Traffic.AccountStore.AddClientTraffic` | internal/database/client_repo.go:793-839 | a committed transaction credits every readable account, drops deleted ones and hands back exactly the unreadable ones; a rolled-back one changes nothing and hands back all |
| `Traffic.HandingBackUndoesATake` | internal/service/traffic_cycle.go:234-265 | taking a counter and returning it restores the ledger |
| `Traffic.HandingBackAfterADrain` | internal/service/traffic.go:177-203 | draining and handing everything back restores the ledger; handing some back leaves exactly that |
| `TrafficEffects.CounterLaws` | internal/service/traffic.go:57-102 | adding wraps one counter, clearing empties one, and no other counter moves |
| `TrafficEffects.FlushTouchesOnlyUsage` | internal/service/traffic.go:177-203 | whatever fails: each account's pending bytes are in its usage or still pending, those of deleted accounts are dropped, and no other field of any record changes |
| `TrafficEffects.FlushReloadsIffItChanges` | internal/service/traffic.go:194-201 | the resolver's copy is rebuilt exactly if the flush changed a record or a counter |
| `TrafficEffects.RollOverTouchesOnlyThePeriod` | internal/service/traffic_cycle.go:227-265 | a roll-over records the period's total, empties usage and counter and moves the count, and touches no other field or account; one that fails changes nothing |
| `TrafficEffects.AnchorTouchesOnlyTheOrigin` | internal/service/traffic_cycle.go:211-225 | a re-anchoring moves origin and count, no byte, and no other account |
| `TrafficEffects.ResetTouchesOnlyUsage` | internal/service/client_service.go:965-983 | with any fault: every other account keeps record and counter; this one keeps name, limit, previous period and schedule, so its next reset and every sweep's decision stay |
| `TrafficEffects.NothingRewrittenIff` | internal/service/traffic_cycle.go:163-209 | a sweep reports no rewrite exactly if no listed account is due and can be written, and then it changed nothing |
| `Traffic.ClientService.AddTraffic` | internal/service/traffic.go:123-125 | adds to the pending counter and touches no stored record |
| `Traffic.ClientService.TrafficUsed` | internal/service/traffic.go:129-134 | usage in the record the caller holds, plus pending, wrapping at 64 bits |
| `Traffic.ClientService.QuotaExceeded` | internal/service/traffic.go:144-166 | whether that figure reaches the limit in the record the caller holds; no limit at zero or below |
| `Traffic.ClientService.ReloadCache` | internal/service/client_service.go:177-196 | the resolver's copy becomes the stored records, or on a failed read stays as it was |
| `Traffic.ClientService.FlushTraffic` | internal/service/traffic.go:177-203 | moves every pending byte into its record or back into the ledger, and rebuilds the resolver's copy exactly if something was written and the list can be read |
| `Traffic.ClientService.ResetTrafficCycle` | internal/service/traffic_cycle.go:234-265 | closes the period from stored plus pending bytes, or on any failure leaves both as they were |
| `Traffic.ClientService.AnchorTrafficCycle` | internal/service/traffic_cycle.go:213-225 | sets the origin and count zero and discards no usage |
| `Traffic.ClientService.ApplyTrafficCycles` | internal/service/traffic_cycle.go:163-209 | the loop over the list leaves the books of one sweep per entry, and reports how many records it rewrote |
| `Traffic.ClientService.SweepClients` | internal/service/client_service.go:920-930 | one sweep over the list, and the copy rebuilt after it exactly if any record was written |
| `Traffic.ClientService.ResetClientTraffic` | internal/service/client_service.go:965-983 | zeroes stored usage and rebuilds the resolver's copy, and clears the pending counter even when the record cannot be written |
| `TrafficSweep.SweepAccountByAccount` | internal/service/traffic_cycle.go:163-209 | under any faults and from a list however old, a sweep does to an account what that account's own entry asks for, as if it were alone in the list |
| `TrafficSweep.SweepServesEveryAccount` | internal/service/traffic_cycle.go:163-265 | with writes succeeding, from any list: what becomes of usage, pending bytes and the closed total, and exactly when the account ends on its current period |
| `TrafficSweep.ResetsEarlyIff` | internal/service/traffic_cycle.go:163-209 | an account gives up usage exactly if it has some, can be written and its listed entry rolls over; before its own boundary exactly if that is ahead too; never if the entry is current |
| `TrafficSweep.SecondSweepIsIdle` | internal/service/traffic_cycle.go:163-209 | a second sweep at the same instant changes no record, moves no byte and reports nothing, whatever faults it meets |
| `TrafficSweep.StaleListResetsEarly` | internal/service/traffic_cycle.go:163-209 | a list read before the cycle was changed makes an account lose its usage with its own boundary ahead |
| `TrafficRuns.RunsKeepTheInvariant` | internal/service/traffic.go:177-203 | the balance holds after every interleaving of relay adds with the steps of flush, roll-over, re-anchoring, manual reset, rebuilds, edits, creation and deletion |
| `TrafficRuns.EveryByteIsAccountedFor` | internal/service/traffic.go:57-118 | conservation: metered bytes are stored, pending, in flight, closed into a past period or discarded by a manual reset, counting each 64-bit wrap |
| `TrafficRuns.ReportedUsageIsExactIff` | internal/service/traffic.go:127-134 | at any moment, the figure given to a caller that holds an older or newer copy of the record is the current period's bytes, less those in flight, if and only if the copy shows the stored usage |
| `TrafficRuns.EnforcementIsExactIff` | internal/service/traffic.go:141-166 | between operations the verdict is right for every limit if and only if the record it is given shows the stored usage; with the stored limit too, an account is cut off exactly when its period's bytes reach it |
| `TrafficRuns.CopyGoesStaleIff` | internal/service/traffic.go:194-201 | the steps after which the resolver's copy no longer shows an account's stored usage and limit, and no others |
| `TrafficRuns.FailedReloadServesOn` | internal/service/client_service.go:177-181 | a flush whose rebuild cannot read the list leaves an account past its limit served |
| `TrafficRuns.SweepCutsOffUntilItsReload` | internal/service/client_service.go:920-930 | after a sweep closed a period and before its rebuild, an account is cut off with nothing metered; the rebuild puts it right |
| `TrafficRuns.UndisturbedReloadShows` | internal/service/client_service.go:177-196 | a rebuild nobody disturbs shows every account as it is stored |
| `TrafficRuns.UninterruptedRollOver` | internal/service/traffic_cycle.go:234-265 | the steps of a roll-over, undisturbed, leave what the method leaves, in each outcome |
| `TrafficRuns.UninterruptedFlush` | internal/service/traffic.go:177-203 | a whole flush, in any order of counters, ends with the books and the resolver's copy the method leaves |
| `TrafficRuns.UninterruptedReset` | internal/service/client_service.go:965-983 | the steps of a manual reset, undisturbed, leave what the method leaves, in each outcome |
| `TrafficRuns.UninterruptedAnchor` | internal/service/traffic_cycle.go:213-225 | so do the steps of a re-anchoring |
| `ClientIndex.BoundMembers` | internal/service/client_service.go:198-227 | an address list holds exactly the filed accounts that bind the address and, when filed, were enabled and not past their expiry |
| `ClientIndex.BoundUnfiled` | internal/service/client_service.go:229-270 | taking an account off every list is the same as never having filed it |
| `ClientIndex.Index.IndexLocked` | internal/service/client_service.go:204-227 | adds exactly this record to each table; keeps the invariant of all five if its id is not on file, as both callers see to |
| `ClientIndex.Index.FileAddresses` | internal/service/client_service.go:221-226 | the loop files the account under each address it lists, in order |
| `ClientIndex.ListsGrow` | internal/service/client_service.go:221-226 | after it every address but the blank one has one entry more for each time it is listed, and the single-account table names the last sharer |
| `ClientIndex.FilingKeeps` | internal/service/client_service.go:204-227 | filing an account whose id is not on file keeps the invariant of the five tables |
| `ClientIndex.Index.DeindexLocked` | internal/service/client_service.go:234-270 | removes the record from every table, each entry only if it still points at this record; for one on file the invariant is kept |
| `ClientIndex.Index.UnfileAddress` | internal/service/client_service.go:247-269 | what happens to both address tables when one address loses an account, for any record |
| `ClientIndex.Index.UnfileAddresses` | internal/service/client_service.go:247-269 | the same for every address the record lists, in order |
| `ClientIndex.ListsShrink` | internal/service/client_service.go:247-269 | for a record on file: the listed addresses lose exactly its entries, the two tables keep the same keys and the last sharer stays the single answer |
| `ClientIndex.UnfilingKeeps` | internal/service/client_service.go:234-270 | unfiling a record on file keeps the invariant of the five tables |
| `ClientIndex.Index.FilterOut` | internal/service/client_service.go:248-254 | the rebuilt list is the old one without that account, in order |
| `ClientIndex.Index.RefreshClientIndex` | internal/service/client_service.go:280-296 | re-files one account as a private copy: its old filing is gone, its new one is last, its credentials lead to it |
| `ClientIndex.Index.ReloadCache` | internal/service/client_service.go:177-196 | files exactly the accounts of the list, in order, in fresh records, keeping the invariant; a failed read changes nothing |
| `ClientIndex.Index.IsIPAllowed` | internal/service/client_service.go:318-346 | answers from the sharers: the last filed if active, else the first active, else the last; refuses exactly when no account binds the address and access is restricted |
| `ClientIndex.PickIsActive` | internal/service/client_service.go:331-345 | the answer is enabled and before its expiry if and only if some sharer is: an expired one never shadows an active one |
| `ClientIndex.NewestSharerAnswers` | internal/service/client_service.go:331-337 | the account filed last answers for each address it lists, while it is enabled and before its expiry |
| `ClientIndex.FindClientByIP` | internal/database/client_repo.go:557-575 | the scan finds the first account that is enabled, not past its expiry and bound to the address, and none exactly if there is none |
| `ClientIndex.ReloadPutsInSync` | internal/service/client_service.go:177-196 | after a reload the filed records are exactly the stored ones |
| `ClientIndex.RefreshKeepsInSync` | internal/service/client_service.go:280-296 | refreshing the one account that was saved keeps the index in sync with the store |
| `ClientIndex.LookupAgreesWithScan` | internal/service/client_service.go:318-346 | in sync, if some stored account is enabled, before its expiry and bound to the address the lookup answers with such an account, and if none binds it there is nothing to answer with |
| `LimitListener.StepKeepsTheCountIff` | internal/netutil/limitlistener.go:48-95 | a step keeps "occupied slots are accepts that acquired plus connections not released" if and only if it does not yield a connection to a call that took no slot |
| `LimitListener.RunsKeepTheInvariant` | internal/netutil/limitlistener.go:48-95 | the slot count holds after every interleaving |
| `LimitListener.CapHoldsOverEveryRun` | internal/netutil/limitlistener.go:11-95 | in every run: slots are accounted for, open connections never exceed the cap, and release always finds a token |
| `LimitListener.CloseUnblocksEveryAccept` | internal/netutil/limitlistener.go:45-77 | an Accept is stuck exactly when the cap is reached and the listener is open; once it is closed every call returns and gives back what it took |
| `LimitListener.RepeatedCloseReleasesOnce` | internal/netutil/limitlistener.go:79-95 | closing a connection again gives nothing back twice |
| `LimitListener.DishonestListenerStrandsAClose` | internal/netutil/limitlistener.go:59-71 | from a fresh listener, a wrapped one that yields after it was closed, to a call that took no slot, leaves a Close with no token to take |
| `Session.ResolveTouch` | internal/service/session.go:77-83 | the write-back interval is a minute, or a quarter of a window shorter than four, or a millisecond for one under 4 ns |
| `Session.SessionManager.constructor` | internal/service/session.go:67-93 | default lifetime and window, and the window clamped to the lifetime |
| `Session.SessionManager.Create` | internal/service/session.go:101-111 | mints one session with a ceiling of now plus the lifetime |
| `Session.SessionManager.Validate` | internal/service/session.go:116-145 | accepts exactly a live session, revokes a stale one, and writes lastSeen back only when due |
| `Session.SessionManager.Delete` | internal/service/session.go:155-159 | removes that session only |
| `Session.SessionManager.DeleteAll` | internal/service/session.go:148-152 | removes every session |
| `Session.SessionManager.SetIdleTimeout` | internal/service/session.go:175-193 | the window is held between one minute and the lifetime, the interval follows it, sessions are kept |
| `Session.SessionManager.Sweep` | internal/service/session.go:207-224 | removes exactly the expired and idle sessions |
| `Session.FrequentUseSurvives` | internal/service/session.go:116-145 | used at gaps of at most idleTTL - touchAfter + 1 ns, a session survives to its ceiling, and the stored lastSeen trails the last use by less than touchAfter |
| `Session.ThreeQuartersIsSafe` | internal/service/session.go:67-93 | gaps of three quarters of the window are always short enough |
| `Session.GapBoundIsExact` | internal/service/session.go:116-145 | that gap is the longest safe one, and a gap longer than the window always revokes |
| `Session.NoUsePastTheCeiling` | internal/service/session.go:125-134 | no use after the absolute lifetime is accepted, whatever the gaps |
| `Session.WritesBackOnlyWhenDue` | internal/service/session.go:135-144 | lastSeen is written back only once the interval has passed, and the ceiling never |
| `Session.SweepKeepsTheLive` | internal/service/session.go:207-224 | a sweep leaves exactly the sessions within both lifetime and window, as they were |
| `Session.UninterruptedValidate` | internal/service/session.go:116-145 | the steps of one Validate, undisturbed, answer and leave the sessions as the method does |
| `Session.RevokedStaysRevoked` | internal/service/session.go:101-159 | in every interleaving of the two lock regions of Validate with logout, logout-all and the sweep: once any step has taken a session away its token never comes back, and no later call accepts it |
| `Session.RemovalKills` | internal/service/session.go:116-159 | whichever step takes a session away, its token is dead to every later call |
| `Session.CeilingNeverMoves` | internal/service/session.go:101-145 | no session's hard ceiling ever changes, and no session appears that was not minted |
| `Session.NoCallPastTheCeiling` | internal/service/session.go:116-145 | in every interleaving, a call judged after the ceiling its token was minted with never answers yes |
| `LoginAttempts.LoginAttemptTracker.IsBlocked` | internal/service/login_attempts.go:33-41 | prunes that address and answers whether three failures remain |
| `LoginAttempts.LoginAttemptTracker.RecordFailure` | internal/service/login_attempts.go:43-55 | logs the failure, prunes the address, and sweeps all of them past the limit |
| `LoginAttempts.LoginAttemptTracker.RecordSuccess` | internal/service/login_attempts.go:57-64 | forgets that address only |
| `LoginAttempts.LoginAttemptTracker.Reset` | internal/service/login_attempts.go:67-76 | forgets that address and says whether it was there |
| `LoginAttempts.LoginAttemptTracker.ResetAll` | internal/service/login_attempts.go:78-87 | forgets every address and says how many there were |
| `LoginAttempts.LoginAttemptTracker.Count` | internal/service/login_attempts.go:89-97 | the number of addresses left after a sweep |
| `LoginAttempts.LoginAttemptTracker.PruneLocked` | internal/service/login_attempts.go:99-116 | the compaction loop keeps exactly the failures inside the window, in order, and drops an address with none |
| `LoginAttempts.LoginAttemptTracker.SweepLocked` | internal/service/login_attempts.go:118-122 | prunes every address, in any order |
| `LoginAttempts.PruningIsInvisible` | internal/service/login_attempts.go:99-122 | pruning one address or all of them changes no answer about a later cutoff, for any address |
| `LoginAttempts.SweepKeepsTheRecent` | internal/service/login_attempts.go:99-122 | a sweep leaves exactly the addresses with a failure inside the window |
| `LoginAttempts.LogRefinesHistory` | internal/service/login_attempts.go:33-122 | over every run with a non-decreasing clock the log and the full history agree inside the window |
| `LoginAttempts.LockoutIsExact` | internal/service/login_attempts.go:33-41 | an address is blocked exactly when at least three of its failures lie inside the window with no success or reset of it since, counted over the events themselves |
| `Latency.LatencyHistogram.Observe` | internal/service/latency.go:40-65 | the counters stay those of all readings so far; a negative reading, or one that is no finite number, is dropped |
| `Latency.LatencyHistogram.TakeSnapshot` | internal/service/latency.go:82-101 | with nobody observing: P50 to P99 are ordered, at most 2000, and each sound; the average is within a microsecond of the mean, the maximum within one of the largest reading |
| `Latency.PercentileFrom` | internal/service/latency.go:110-138 | the scan computes the interpolated value in the bucket where the running total reaches the target |
| `Latency.PercentileIsMonotone` | internal/service/latency.go:110-138 | a quantile never falls as q grows and stays between 0 and the last edge |
| `Latency.QuantileIsSpreadEvenly` | internal/service/latency.go:126-135 | inside its bucket the value stands as far between the edges as the target stands among the bucket's readings |
| `Latency.QuantilesOutsideTheRange` | internal/service/latency.go:110-138 | at or below zero the low end of the scale, above one the last edge, without readings zero |
| `Latency.TotalCountsReadings` | internal/service/latency.go:40-65 | running bucket totals count the readings below each edge |
| `Latency.QuantileLiesInTheRanksBucket` | internal/service/latency.go:103-138 | for 0 < q <= 1 the value lies in the bucket of the reading of rank ceil(q n), and is the last edge if that one overflowed |
| `Latency.EveryRankIsSomeReadings` | internal/service/latency.go:103-138 | every rank of a non-empty histogram belongs to some reading, so that covers every quantile |
| `LatencyRuns.RunsKeepTheInvariant` | internal/service/latency.go:40-101 | what every interleaving of observers and a snapshot keeps: each counter accounts for the readings that have reached it |
| `LatencyRuns.CountersAreExactAtRest` | internal/service/latency.go:40-65 | once every reading is through, buckets, count, sum and maximum are those of all readings, however often the compare-and-swap lost its race |
| `LatencyRuns.SnapshotIsOfReadings` | internal/service/latency.go:78-101 | bucket counts loaded while others observe are those of some readings, all that were in at the start among them; so the quantiles are ordered and sound for those |
| `SealedClients.UnpackInvertsPack` | internal/database/client_repo.go:148-333 | unpacking what was packed gives the client back, its UUID filled in and at least one device |
| `SealedClients.FilledUUIDIs` | internal/database/client_repo.go:148-170 | a client keeps its UUID, else gets the one a record of its id and token decodes to, else a random one |
| `SealedClients.PackFailsIff` | internal/database/client_repo.go:148-242 | packing fails exactly without a key or without randomness for a text to be sealed |
| `SealedClients.UuidsSeparateTokens` | internal/database/client_repo.go:123-146 | with a folding that keeps fingerprints apart, derived UUIDs of one id differ exactly as the tokens do |
| `SealedClients.DamagedFieldsReadAsDefaults` | internal/database/client_repo.go:244-333 | a field that cannot be opened or parsed reads as its default, except the token, without which there is no client |
| `SealedClients.SavedRecordValidatesIff` | internal/database/client_repo.go:356-453 | what SaveClient writes validates if and only if the client has an id, a name and a token |
| `SealedClients.ValidatedRowsDecode` | internal/database/client_repo.go:356-432 | a validated row decodes, under its own key, to a client with a name and a token, and every field that is there opens |
| `SealedClients.ValidationRefuses` | internal/database/client_repo.go:356-432 | what validation refuses: no record, another key, no name, both token forms or neither, a fingerprint without its token or of another |
| `SealedClients.FindClientByToken` | internal/database/client_repo.go:506-554 | the scan's answer: the last match by the probe, or unreadable at the first match that cannot be decoded or opened |
| `SealedClients.LookupFindsTheOwner` | internal/database/client_repo.go:497-554 | over a store that validates, a token answers with a client that has it, the last of them, and with none exactly if nobody has it |
| `SealedClients.SavedClientIsFound` | internal/database/client_repo.go:435-554 | a client saved with an id, a name and a token is found by its token, as it was saved |
| `SealedClients.WhoseRecordItIs` | internal/database/client_repo.go:497-554 | a legacy record belongs to its clear token, a sealed one to the token of its fingerprint, under either domain separator |
| `SealedClients.BlankTokenFindsNobody` | internal/database/client_repo.go:506-509 | the blank token is nobody's |
| `SealedClients.EncryptLegacyClientTokens` | internal/database/client_repo.go:869-950 | seals every legacy token it can, reports exactly how many rows changed, changes nothing without a key or when the transaction rolls back |
| `SealedClients.SealingIsInvisible` | internal/database/client_repo.go:869-950 | sealing one validated record changes neither the decoded client, derived UUID included, nor which tokens find it, nor that it validates |
| `SealedClients.MigrationPreservesMeaning` | internal/database/client_repo.go:861-950 | for every store that validates: same clients, same answer for every token, and it still validates |
| `SealedClients.SecondRunConvertsNothing` | internal/database/client_repo.go:861-950 | no record's token is left in the clear if and only if every legacy token could be sealed, and then a second run changes nothing |
| `SealedSettings.DecodeInvertsEncode` | internal/database/setting_repo.go:35-101 | a saved setting reads back as its JSON, with or without a key; without the key a sealed one is refused |
| `SealedSettings.EncodeFailsIff` | internal/database/setting_repo.go:43-58 | saving fails only where a key is loaded and there is no randomness; without a key the JSON itself is stored |
| `SealedSettings.BothEnvelopesOpen` | internal/database/setting_repo.go:21-33 | either prefix opens the same envelope, and both are refused without the key or under another |
| `SealedSettings.PlainTextReads` | internal/database/setting_repo.go:63-101 | text that is no JSON is quoted into a raw message, taken as it is by a string, refused by anything else |
| `SealedSettings.ClearValuesNeedNoKey` | internal/database/setting_repo.go:60-77 | a value in the clear is read the same with any key or none |
| `SealedSettings.ValidationRefuses` | internal/database/setting_repo.go:153-214 | what validation refuses of a known key, and that it refuses nothing of any other |
| `SealedSettings.EncryptLegacySettings` | internal/database/setting_repo.go:247-296 | seals every cleartext value it can and reports exactly how many; all or nothing when the transaction fails |
| `SealedSettings.SealingIsInvisible` | internal/database/setting_repo.go:60-101 | sealing a value, JSON or not, changes what no target reads from it |
| `SealedSettings.MigrationPreservesMeaning` | internal/database/setting_repo.go:240-296 | for every store: each value decodes as before, and each row validates exactly if it did before |
| `SealedSettings.SecondRunConvertsNothing` | internal/database/setting_repo.go:240-296 | after a run that could seal everything, a second run leaves every byte as it is |
| `SealedStore.MigratedStoreValidates` | internal/database/db.go:189-213 | a store let through at opening is let through by the check after the file is rewritten |
| `PasswordRecord.Base64RoundTrip` | internal/crypto/password.go:113-115 | unpadded base64 (RFC 4648, sections 3.2 and 4) decodes to what was encoded, for every byte string |
| `PasswordRecord.PublishedVectors` | internal/crypto/password.go:113-115 | the vectors of RFC 4648, section 10, without their padding |
| `PasswordRecord.AlphabetIs` | internal/crypto/password.go:201-207 | 64 characters decode, each the letter of one value |
| `PasswordRecord.DecodesIff` | internal/crypto/password.go:201-207 | text decodes exactly if, line breaks apart, it is of the alphabet and leaves no lone character |
| `PasswordRecord.LineBreaksAreSkipped` | internal/crypto/password.go:201-207 | a line break anywhere is as good as absent |
| `PasswordRecord.DecimalRoundTrip` | internal/crypto/password.go:191-194 | a printed integer parses back if it fits in 64 bits, is refused otherwise, and has no dollar sign |
| `PasswordRecord.PrintedFields` | internal/crypto/password.go:181-185 | splitting the printed record gives back its four fields |
| `PasswordRecord.PrintedRecordParsesIff` | internal/crypto/password.go:106-209 | the record parses back to exactly what was printed if and only if the cost is from 1 to 20 times 600000 and neither salt nor key is empty |
| `PasswordRecord.ParsedRecordsAreInBounds` | internal/crypto/password.go:181-209 | whatever parses is four fields of this scheme joined by dollar signs, with an accepted cost and a salt and key that are there |
| `PasswordRecord.SplitJoins` | internal/crypto/password.go:182-182 | the fields are what stands between the dollar signs |
| `PasswordRecord.HashVerifiesItsPassword` | internal/crypto/password.go:126-157 | a hash verifies exactly the non-empty submissions of allowed length that derive the same key |
| `PasswordRecord.LegacyPlaintextVerifies` | internal/crypto/password.go:133-147 | what is no hash is compared as it is; nothing verifies against an empty record, by an empty submission or a too long one |
| `TwoFactor.AuthSettings.SetTOTPPending` | internal/database/auth_access.go:195-209 | refused on an active record; otherwise the pending secret is set, and stays set when storing fails |
| `TwoFactor.AuthSettings.ConfirmTOTP` | internal/database/auth_access.go:214-241 | a wrong code changes nothing; a right one promotes the pending secret; a failed store leaves the constants |
| `TwoFactor.AuthSettings.DisableTOTP` | internal/database/auth_access.go:246-270 | erases the factor and any enrollment, or on a failed store leaves all four fields as they were |
| `TwoFactor.AuthSettings.SetLDAP` | internal/database/auth_access.go:275-302 | stores the normalised directory settings, or on a failed store leaves the old ones |
| `TwoFactor.AuthSettings.TOTPEnabledNow` | internal/database/auth_access.go:125-135 | in force exactly with the flag, a confirmation time and a secret |
| `TwoFactor.LifeCycle` | internal/database/auth_access.go:191-270 | enrolled, confirmed and disabled, each stored: the factor is the enrolled secret with its confirmation time, then nothing of it is left; memory and store are the same throughout |
| `TwoFactor.FailuresAndRefusals` | internal/database/auth_access.go:195-302 | what each refusal and each failed store leaves, in memory and stored |
| `TwoFactor.WithoutACallback` | internal/database/auth_access.go:205-207 | without a callback each operation does in memory what it does when stored |
| `TwoFactor.DirectoryIsTidied` | internal/database/auth_access.go:285-291 | the stored directory is the given one, each text in its own field without the white space around it, the mode in small letters, the password untouched |
| `TwoFactor.AgreementIsLostIff` | internal/database/auth_access.go:195-302 | from agreeing records, the exact operations and outcomes after which memory and store disagree |
| `TwoFactor.RunsKeepInv` | internal/database/auth_access.go:195-302 | agreement and exclusion hold over every run of operations, failures and restarts |
| `TwoFactor.LiveAndStoredAgree` | internal/database/auth_access.go:195-302 | from a fresh record, flag, secret and confirmation time match between memory and store, and a factor in force never coexists with an open enrollment |
| `TwoFactor.HardCodedUndoIsExact` | internal/database/auth_access.go:233-239 | the constants a failed confirmation rolls back to are what was there before |
| `TwoFactor.BlankStampParts` | internal/database/auth_access.go:214-241 | with a blank confirmation time, four operations make memory and store disagree |
| `TwoFactor.RestartKeepsTheVerdict` | internal/database/auth_access.go:125-135 | whatever the confirmation times, a restart never turns the second factor on or off or changes its secret |
| `TwoFactor.FactorOutlivesEverythingElse` | internal/database/auth_access.go:243-270 | a factor in force survives every run with no disable that was stored |
| `TwoFactor.FactorsInForceWereEarned` | internal/database/auth_access.go:191-241 | a login is never checked against a secret that was not enrolled and later answered by a code it verifies |
| `BootMigration.LoadMigrationMarkers` | internal/bootstrap/migrate.go:65-83 | an absent or null record is the empty set; an unreadable one is an error |
| `BootMigration.MigrateDefaultAllowAll` | internal/bootstrap/migrate.go:35-63 | what one boot leaves behind, for every fault and every point it may stop at |
| `BootMigration.OneBootsFailures` | internal/bootstrap/migrate.go:39-60 | what each failure of one boot costs: nothing is written, or only the marker is missing |
| `BootMigration.MarkerFollowsEffect` | internal/bootstrap/migrate.go:25-31 | a boot that makes the marker durable leaves allow_all=false, and had stored it before it wrote the marker |
| `BootMigration.MarkerIsDurableIff` | internal/bootstrap/migrate.go:35-63 | over any run of starts, toggles and stops, the marker is durable if and only if some start completed the migration, having stored allow_all=false itself |
| `BootMigration.DoneStays` | internal/bootstrap/migrate.go:30-31 | once the marker is durable no start changes anything: the setting is what the operator last made it, by dashboard or flag |
| `BootMigration.OtherMarkersAreKept` | internal/bootstrap/migrate.go:54-55 | every other migration's marker is kept, over any run, and none is invented |
| `BootMigration.CleanBootConverges` | internal/bootstrap/migrate.go:15-31 | after any run over a readable record, one start without faults finishes the migration for good |
| `BootMigration.UnreadableLeavesTheSetting` | internal/bootstrap/migrate.go:39-46 | an unreadable record stops the migration without touching the setting |
| `BootMigration.OpenSettingSurvivesIff` | internal/bootstrap/migrate.go:54-60 | a setting that lets everyone in survives, with the operator away, if and only if no later start reaches the first write |
| `BootMigration.FailedMarkerOverridesTheOperator` | internal/bootstrap/migrate.go:54-60 | the run in which a failed marker write makes the next start override the operator |
| `BootMigration.CrashIsHarmless` | internal/bootstrap/migrate.go:25-28 | after a crash inside the migration only a start can follow, and writing the same value again changes nothing |
| `GameHistory.Store.SaveGameProfile` | internal/game/store.go:134-151 | stores the profile under its own id with the time of saving, or nothing |
| `GameHistory.Store.SaveDomainIntel` | internal/game/store.go:221-239 | stores the record under its normalised name with the time of saving, or nothing |
| `GameHistory.Engine.SyncProfilesToMatcher` | internal/game/engine.go:97-130 | the rules become exactly the enabled domains of the enabled profiles, by policy; an unreadable list leaves them |
| `GameHistory.Engine.RulesOfProfile` | internal/game/engine.go:108-125 | one profile's share of them, in whatever order its domains come |
| `GameHistory.Engine.SaveGameProfile` | internal/game/engine.go:185-219 | files the stored profile as the new version's snapshot, saves the new one, rebuilds the matcher's rules and logs it; nothing of that if the save fails |
| `GameHistory.Engine.RollbackGameProfile` | internal/game/engine.go:246-292 | puts the first snapshot of that version back under the current history plus one entry without a snapshot, rebuilds the rules and logs it; each error leaves everything alone |
| `GameHistory.Engine.AddGameDomain` | internal/game/engine.go:295-330 | one version with that domain in the profile, then the same record in the intelligence bucket, whose failure is reported but undoes nothing |
| `GameHistory.Engine.RemoveGameDomain` | internal/game/engine.go:333-346 | one version without that domain, then its intelligence record deleted |
| `GameHistory.Engine.UpdateGameDomainPolicy` | internal/game/engine.go:349-391 | one version with that domain edited or created, then the same record in the intelligence bucket |
| `GameHistory.Engine.UpdateGameCategoryPolicy` | internal/game/engine.go:395-419 | one version with the category's default and, if propagated, every member domain, whose intelligence records were written before |
| `GameHistory.Engine.Propagate` | internal/game/engine.go:406-416 | the loop gives the policy to exactly the domains of the category, and their intelligence records follow, in whatever order they come and whichever writes fail |
| `GameHistory.NormalizedNames` | internal/game/store.go:125-129 | the white space around a name, one trailing dot and the case of its letters do not matter |
| `GameHistory.EditTouchesOneDomain` | internal/game/engine.go:295-391 | an edit of one domain touches no other domain and no other field of the profile |
| `GameHistory.AddedDomainIs` | internal/game/engine.go:301-324 | every field of an added domain |
| `GameHistory.RemovedDomainIsGone` | internal/game/engine.go:339-340 | a removed domain is not in the profile |
| `GameHistory.SetDomainIs` | internal/game/engine.go:355-385 | what a setting changes in a known domain, what it keeps, and what an unknown one starts as |
| `GameHistory.CategoryEditIs` | internal/game/engine.go:401-416 | a category's default always, and if propagated exactly the category's domains, in policy and time only |
| `GameHistory.FailuresLeaveTheProfiles` | internal/game/engine.go:246-299 | an operation that cannot load, finds nothing to put back or cannot save says so and changes no profile |
| `GameHistory.NewVersionIsSigned` | internal/game/engine.go:196-202 | a new version says who made it, when and what, and the profile carries the time of its save |
| `GameHistory.IntelMirrorsTheProfile` | internal/game/store.go:221-239 | the intelligence record of a saved domain is the profile's, but for the time, and no other record changes |
| `GameHistory.SavesAreLogged` | internal/game/engine.go:210-216 | a save that succeeds is logged under its actor and game unless logging fails; any other is not |
| `GameHistory.WorkersTouchOneThing` | internal/game/discovery.go:235-271 | a promotion changes one domain, a reroute the preferred node |
| `GameHistory.AddedAndRemovedAreEnforced` | internal/game/engine.go:97-130 | the rebuilt rules list an added domain under its policy while its game is enabled, and a removed one nowhere |
| `GameHistory.SavedPolicyIsEnforced` | internal/game/engine.go:97-130 | after a saved policy, the rebuilt rules list the domain under that policy and no other, exactly while game and domain are enabled |
| `GameHistory.FindsItsVersion` | internal/game/engine.go:252-258 | in a well-numbered history the search finds the entry its number names, and nothing else |
| `GameHistory.StepSavesItsOwn` | internal/game/engine.go:185-419 | an operation changes at most its own game, whose history stays or grows by the next version, with a snapshot of the profile as it was or none |
| `GameHistory.HistoryIsAppendOnly` | internal/game/engine.go:185-419 | over every run the history only grows and its versions are 1 to n |
| `GameHistory.RollbackRestores` | internal/game/engine.go:245-292 | for any version made in any run: at the end, rolling back to it restores exactly the content that existed just before it was saved, or is refused because it carries no snapshot |
| `GameHistory.OnlyEditsCanBeUndone` | internal/game/engine.go:196-202 | a new version carries a snapshot if and only if an edit made it and its second read succeeded |

## Left out

- Whole-record writers outside the flush lock, such as `UpdateClient` (`internal/service/client_service.go:509-589`): interleaved with a flush they can store a stale usage figure. In `TrafficRuns` an edit is one atomic step.
- `deactivateExpired`: a sweep is told how many accounts it switched off.
- TrafficRuns.EveryByteIsAccountedFor: a database transaction is atomic and a failed one stores nothing; a commit that fails after reaching the disk is not modelled.
- TrafficRuns.EnforcementIsExactIff: usage and limit are compared as real numbers, where the code compares 64-bit floats.
- Calendar.AddDaysIsWholeDays: a fixed offset from UTC, so no daylight-saving shifts; no monotonic clock reading.
- TrafficCycle.NormalizedNamesAreCanonical: case folding covers ASCII letters, and white space is the ASCII kind, U+0085 and U+00A0.
- ClientIndex.Index.IsIPAllowed: may answer with an expired account when every sharer has expired; that is what the code does. Locks are not modelled: each method is one lock region.
- ClientIndex.Index.ReloadCache: the list has no id twice, since ids are bucket keys; record pointers are shared between the tables as in the source, but the slices inside a record (addresses, domains, policies) are values, so the copying that keeps them private is not.
- LimitListener.CapHoldsOverEveryRun: the listener is a value changed by steps, not a class, because its calls interleave; a cap of zero or less, which returns the listener unwrapped, is not modelled.
- Session.RevokedStaysRevoked: minted tokens are assumed never to repeat; the cleanup ticker's timing is left open.
- LoginAttempts.LoginAttemptTracker.PruneLocked: the compaction reuses the old slice's memory; here the kept failures form a new sequence.
- LatencyRuns.SnapshotIsOfReadings: the average and the maximum of a concurrent snapshot, which are read at other moments than the buckets; counters that wrap at 64 bits; milliseconds are reals.
- SealedSettings.DecodeInvertsEncode: a decode that fails half-way leaves nothing behind; settings read without `decodeSetting` (`internal/game/store.go:585-589`) are not covered.
- SealedClients.FindClientByToken: comparison in constant time is equality.
- Compaction and replacement of the database file, except that the store it re-checks validates.
- PasswordRecord.HashVerifiesItsPassword: strings are sequences of bytes; a key derivation that reports an error is not modelled.
- Password strength rules and `NeedsRehash` (`internal/crypto/password.go:159-285`).
- TwoFactor.LiveAndStoredAgree: needs a persist callback and a non-blank confirmation time, as every caller gives; the exact condition is `TwoFactor.AgreementIsLostIff`.
- BootMigration.MarkerFollowsEffect: a settings write is atomic; one that reports failure stored nothing.
- GameHistory.RollbackRestores: profiles replaced through the HTTP API's PUT and POST bodies, which bring their own history, and deletions are not in the runs; each engine call is one step, although the code takes no lock across its reads and its save.
- GameHistory.Engine.SyncProfilesToMatcher: rules are sets, without the order and repetition of the lists; policies are compared ignoring ASCII case only.
- GameHistory.Engine.SaveGameProfile: a nil map and an empty one are the same, and text is assumed to be valid UTF-8, so that JSON loses nothing.
- Nil receivers and a nil store, which return a zero value or an error at once.
- HTTP routing, TLS, LDAP, Telegram, TUI, the DNS cache, matcher, proxy and upstream packages.
