# Verified model of a multi-tenant shop platform's hard core

The platform hosts small shops. This project models the parts of it whose promises span many calls or many runs, and proves
those promises for all inputs:

- **Calendar, zones and money.** `Calendar`, `Decimal`, `Zone`, `MonthTime`, `Revenue`, `Overview`. A proleptic Gregorian
  calendar (section 21.4.1 of ECMA-262), a time zone as a step function of offsets, the two-pass conversion of a wall time to an
  instant, calendar-month windows, month arithmetic, and revenue recognised month by month.
- **Protocols.** `PlatformSettings` (cache-aside with a time to live over a store any call to which may fail), `PurgeReplay`
  (backup, restore, capture, re-purge), `Impersonation` (a single-use handoff), `RateLimit` (a fixed-window counter with an
  in-process fallback). Concurrent callers are steps of a state machine; every statement is about all interleavings.
- **Analytics.** `Ingest`, `VisitorKey`, `Counting`, `Rollup`, `Visitors`, `Retention`, `Report`, `NightlyRuns`. Raw events
  become permanent daily aggregates, are pruned, and are reported from the aggregates alone.
- **Readable colours.** `Contrast`, `Tokens`, `Palettes`. WCAG 2.1 contrast over reals, the lightness walk, the guard that makes
  every text colour readable on every ground, and palettes measured by the standard's own formula.
- **Globs.** `Regex`, `Glob`, `Ownership`. A denotation for regular expressions, a parser for their text, a denotation for
  globs, the compiler from one to the other, and the verdict of the ownership check.
- **Parsers.** `SmtpSink` (a chunk-fed line machine, section 4.5.2 of RFC 5321), `MapUrl` (map links), with `Text` and `Options`.

Code that changes state step by step is a class or a method with loops, proved equal to a specification function; the lemmas are
about those functions. `dafny verify dfyconfig.toml` checks everything.

## Where the code and its promises part

For each of these the exact condition under which the promise holds is proved, and an input on which it fails is given or follows.

- The glob compiler does not escape `?`. The emitted expression means the glob exactly when the pattern holds no `?`
  (`Glob.FaithfulExactly`).
- Retention cuts raw events at an instant, not at a day. Rolling a day up again after the cut has gone through it overwrites its
  permanent rows with a part of them; it is harmless exactly when the cut splits no day (`Retention.SurvivesExactly`).
- The number of events a rollup reports is described as the raw events of the day, zero meaning that nothing was written. It
  leaves out searches and section views, and a day of nothing else reports zero though its rows are written
  (`Rollup.ZeroReportedExactly`).
- A term in the list of missed searches can show fewer searches than the same term in the list of all searches: one successful
  search and, a day later, one failed search give two and one (`Report.MissedShowsFewer`). The two agree exactly when the term
  failed on every reported day on which it was searched (`Report.MissedRowsAgree`).
- The lightness walk says black or white always passes as a last resort. It tries only the end it was walking to, so it rescues
  every foreground exactly when that end passes: not in a band of mid-tone backgrounds, pure red among them, where black would
  have passed (`Contrast.RescuesExactly`, `Contrast.MidtonesFail`, `Contrast.RedIsNotRescued`).
- The guard keeps its promise whatever that walk does exactly when some grey clears page, surface and alternate, or the four
  colours clear them as they are (`Tokens.ReadableExactly`). Two remarks in the code say that this always comes about. The
  surface derived from a page is called compatible by construction; it is so exactly as `Tokens.DefaultServedExactly` says, and on
  the page #707070 no luminance serves both (`Palettes.MidPageUnreadable`). A neutral is said to land in any usable band; on the
  page #fffdf3 the surface #070102 is usable and no grey clears both (`Palettes.NarrowBandMissed`).
- A printed map link reads back exactly when each coordinate is zero or at least a millionth in size, and not both are zero
  (`MapUrl.RoundTripBySize`); smaller ones are printed with an exponent.
- With a limit of zero the in-process limiter lets the first request of a window through and the counter script does not
  (`RateLimit.LimitersAgree`).
- A purge that begins before the restore point is stamped and commits after the snapshot is missed by the replay
  (`PurgeReplay.StraddlingPurgeIsMissed`). No continuation has one exactly when every purge under way at the snapshot is stamped
  after the restore point (`PurgeReplay.NeverStraddledExactly`).
- A reader that read the settings row before a write can put the old value back after the writer's delete, and from the start
  there is such a run (`PlatformSettings.OldAnswerHappens`); new readers are safe exactly when no such reader is in flight
  (`PlatformSettings.FreshExactly`).
- A month window holds exactly its month's instants when the local midnights at its ends are neither skipped nor repeated
  (`MonthTime.PartitionExactly`).
- A captured mail reads back as the lines that were sent exactly when none of them holds a bare line feed
  (`SmtpSink.LinesReadBackExactly`).

## Model

| member | source | states |
|---|---|---|
| Calendar.DayRoundTrip | src/server/time.ts:53 | every day number is exactly one valid civil date (the reading and writing of `Date.UTC`) |
| Calendar.CivilRoundTrip | src/server/time.ts:53 | every valid civil date is exactly one day number |
| Calendar.Epoch | src/server/time.ts:53 | day zero is 1 January 1970; 2000 had a 29 February and 1900 had none |
| Calendar.MakeDayIs | src/server/time.ts:66 | months and days that overflow roll over into the right month and year |
| Calendar.MonthLength | src/server/time.ts:102 | day zero of the next month is the last day of this one; months have 28 to 31 days |
| Calendar.OrdinalExactly | src/server/admin/revenue.ts:64-67 | calendar months partition the days |
| Zone.OffsetMsIs | src/server/time.ts:51-54 | the formatter's fields minus the instant are the zone's offset, for instants on a whole second |
| Zone.UtcRoundTrip | src/server/time.ts:53 | the six fields name one instant and are read back from it |
| Zone.TwoPasses | src/server/time.ts:66-71 | the second offset is the right one: the result shows the wall time if it exists (the later instant when it occurs twice), and overshoots by exactly the gap if it does not |
| Zone.ZonedTimeToUtcExact | src/server/time.ts:57-72 | the same for the code's own fields and formatter, for every wall time, overflowing fields included |
| MonthTime.KeyRoundTrip | src/server/admin/revenue.ts:69-72 | a month key reads back as the ordinal of the month it was printed from if and only if the year is not negative, and what it reads back as otherwise |
| MonthTime.WindowBounds | src/server/time.ts:82-90 | consecutive windows abut, December into January included |
| MonthTime.CleanPartition | src/server/time.ts:82-90 | between clean midnights an instant is in a window exactly when it shows that month |
| MonthTime.PartitionExactly | src/server/time.ts:82-90 | every instant lies in its own window if and only if no midnight on a 1st is skipped or repeated |
| MonthTime.WindowsAndKeysAgree | src/server/admin/revenue.ts:64-88 | membership by the window's instants is membership by the window's key |
| MonthTime.MonthsLaterExact | src/server/time.ts:96-105 | for every count, negative ones included, the month moves by exactly that count, the time of day stays, the day is clamped to the target's length |
| MonthTime.AddMonthsExact | src/server/time.ts:96-105 | the result's wall clock is the target whenever the target exists, and otherwise lies past it by the gap |
| MonthTime.AddMonthsComposes | src/server/time.ts:96-105 | additive for days up to the 28th, when the intermediate wall time exists |
| Revenue.RecognisedRecurring | src/server/admin/revenue.ts:96-120 | the loop totals each paid recurring payment's share of the target month, months read from keys; for dates in years that are not negative, months by the wall clock |
| Revenue.NonRecurringInWindow | src/server/admin/revenue.ts:123-134 | the loop totals the paid set-up fees and add-ons of the window |
| Revenue.CollectedInWindow | src/server/admin/revenue.ts:137-148 | the loop totals everything paid in the window but orders |
| Revenue.OnePaymentByKind | src/server/admin/revenue.ts:30-148 | what one payment is worth to each figure, by its kind, period and status: a yearly subscription a twelfth, to within its rounding, in each of twelve months |
| Revenue.TwelveTwelfths | src/server/admin/revenue.ts:75-80 | twelve rounded twelfths differ from the whole by at most 6 agorot |
| Revenue.RecognitionConserves | src/server/admin/revenue.ts:96-120 | over a span covering every month paid for, recognised money is paid money to within 6 agorot per yearly payment |
| Revenue.CollectedSplits | src/server/admin/revenue.ts:122-148 | over payments of the four kinds there are, collected is the set-up fees and add-ons plus the window's subscription money |
| Revenue.OrdersDoNotCount | src/server/admin/revenue.ts:46-50 | payments of kind `order` move none of the three figures |
| Revenue.MonthlyFiguresAgree | src/server/admin/revenue.ts:96-148 | for monthly payments the key-based figure is the date-based one |
| Overview.LookBackBound | src/server/admin/overview.ts:49-54 | the shifted date, rolled over or not, leaves room before the first month still recognised |
| Overview.LookBackIs | src/server/admin/overview.ts:49-54 | the look-back date keeps day of the month and time of day as many months earlier, a day that month lacks rolling over |
| Overview.LoadedExactly | src/server/admin/overview.ts:80-90 | what the query loads: the paid payments since the look-back date that are not orders |
| Overview.TooOld | src/server/admin/overview.ts:80-90 | a payment before the look-back date counts for nothing in the current month |
| Overview.LookBackLosesNothing | src/server/admin/overview.ts:80-90 | filtering by the look-back date changes none of the three figures, for any look-back of a year or more |
| Overview.Figures | src/server/admin/overview.ts:51-54 | the screen's three figures, computed from the loaded payments, are those of all payments |
| PlatformSettings.InvKept | src/server/platform-settings.ts:49-61 | every step of every reader and writer keeps each cached and held value one the row really held, and each cached and returned one traceable to the reader that set it |
| PlatformSettings.BoundedStaleness | src/server/platform-settings.ts:49-101 | in every interleaving, with any cache call failing, an answer is one the row gave at most a time to live ago, plus the read-to-set delay of an actual reader that read it there and wrote the cache then |
| PlatformSettings.DeleteFreshens | src/server/platform-settings.ts:130-158 | a delete that succeeds leaves the key absent, and fresh if and only if no older reader is in flight |
| PlatformSettings.StaysFresh | src/server/platform-settings.ts:49-101 | once fresh, every continuation answers with that version or a later one |
| PlatformSettings.FreshExactly | src/server/platform-settings.ts:145-158 | no new reader is ever answered with an older version if and only if no older reader is in flight at the delete |
| PlatformSettings.OldAnswer | src/server/platform-settings.ts:58-60 | the steps by which a reader in flight brings its old value back |
| PlatformSettings.OldAnswerHappens | src/server/platform-settings.ts:49-61 | a run from the start that reaches a successful delete with an old reader in flight, and answers a new reader with the old cap |
| PlatformSettings.Settings.Read | src/server/platform-settings.ts:49-61 | one undisturbed read takes exactly the steps of the state machine, and its answer is the row's whenever the cache is missed or unreachable; what that answer is to a written setting is `WriteThenRead` |
| PlatformSettings.Settings.Write | src/server/platform-settings.ts:110-158 | one undisturbed write: the row upserted, then exactly the one key it touches deleted |
| PlatformSettings.CapEdited | src/server/platform-settings.ts:146-158 | a cap edit sets the cap and leaves the bar's answer, with or without a row before it |
| PlatformSettings.BarEdited | src/server/platform-settings.ts:83-130 | a bar edit leaves the cap's answer, and shows the bar exactly when it is enabled and both its texts are non-empty |
| PlatformSettings.WriteThenRead | src/server/platform-settings.ts:49-158 | a write and then an undisturbed read of the key it touches returns what was written, cache reachable or not; a reader of the other key gets what it would have got before |
| PlatformSettings.ServedForItsTime | src/server/platform-settings.ts:22-61 | a cached value is served for five minutes (cap) or one minute (bar), and from then on is not |
| PurgeReplay.Restored.Replay | scripts/purge-replay.ts:156-278 | the loop's counters, lists, final database and exit code are those of the row-by-row specification, and a dry run changes nothing; what the specification comes to is `ReplayBlocksExactly`, `UndisturbedExactly` and `AllPurged` |
| PurgeReplay.ReplayBlocksExactly | scripts/purge-replay.ts:208-231 | whatever goes on around the run: an id is blocked if and only if a selected row names a tenant restored in another status than suspended, and as many rows are absent as name no restored tenant |
| PurgeReplay.UndisturbedExactly | scripts/purge-replay.ts:233-255 | nobody interfering and each id listed once: exactly the suspended tenants whose purge does not fail go, with a tombstone naming who ordered the first purge, and exactly the failing ones are reported |
| PurgeReplay.AllPurged | scripts/purge-replay.ts:203-259 | every listed tenant that came back suspended is purged when nothing fails: none blocked, none failed, `purged` the rows whose tenant was there, everybody else untouched |
| PurgeReplay.RowsAddUp | scripts/purge-replay.ts:203-259 | purged, absent, blocked and failed add up to the rows selected, duplicates included |
| PurgeReplay.OnlySuspendedGo | src/server/billing/state-machine.ts:34-68 | only suspended tenants are removed, only listed ones, and nobody else comes or goes |
| PurgeReplay.NoneLeft | scripts/purge-replay.ts:208-255 | nothing blocked and nothing failed means no listed tenant is left |
| PurgeReplay.SelectedIs | scripts/purge-replay.ts:164-166 | selected rows are the captured ones stamped after the restore point |
| PurgeReplay.ReplayCompletes | scripts/purge-replay.ts:156-278 | over a production history, a snapshot, a later capture and a replay with any restore point: complete if and only if no captured purge straddles restore point and snapshot; accounting and the suspended-only rule hold in every case |
| PurgeReplay.NeverStraddledExactly | docker/backup/backup.sh:246-253 | no continuation of production straddles a snapshot if and only if every purge under way at it is stamped after the restore point |
| PurgeReplay.QuietSnapshot | docker/backup/backup.sh:246-253 | so a snapshot with no purge under way is never straddled |
| PurgeReplay.StraddlingPurgeIsMissed | scripts/purge-replay.ts:164-166 | a concrete purge that straddles the snapshot, after which the tenant is live and the run reports success |
| Impersonation.InvKept | src/server/admin/impersonation.ts:122-142 | every step of every consumer keeps records, parked values and finished consumers consistent |
| Impersonation.SingleUse | src/server/admin/impersonation.ts:118-142 | in every interleaving at most one consumer obtains a token's cookies, they are the parked ones, and none does after expiry |
| Impersonation.UncontendedUse | src/server/admin/impersonation.ts:122-142 | a lone consumer in time does obtain them, and the record is gone |
| Impersonation.ParkThenUse | src/server/admin/impersonation.ts:84-142 | a token parked and presented once yields its cookies if and only if no more than a minute has passed and there are cookies; it is used up either way |
| RateLimit.Limiter.ConsumeSlot | src/server/rate-limit.ts:93-112 | the shared counter decides when it answers and the process decides when it does not; neither disturbs the other's state; how many that lets through is `ExactCount` |
| RateLimit.Limiter.PruneMemoryWindows | src/server/rate-limit.ts:45-58 | the two deletion passes leave exactly the live windows less the oldest excess |
| RateLimit.Limiter.ConsumeInMemory | src/server/rate-limit.ts:68-85 | the decision and the new map are the specified ones, which count exactly (`ExactCountInMemory`) |
| RateLimit.ExactCount | src/server/rate-limit.ts:29-108 | a request is allowed if and only if fewer than its limit came before it for its key in the window it is counted in, a window defined from the request times alone; `remaining` is the limit less the hits, floored at zero |
| RateLimit.WindowReopens | src/server/rate-limit.ts:29-33 | the first request after a window has ended opens a new one and is the first in it |
| RateLimit.ExactCountInMemory | src/server/rate-limit.ts:68-85 | the same exact count for the in-process map, for a limit of at least one and a key not evicted |
| RateLimit.KeepsDistinct | src/server/rate-limit.ts:36-58 | each request keeps keys distinct and the map within 10,001 windows |
| RateLimit.MapBounded | src/server/rate-limit.ts:35-58 | after any requests at all, whatever the clock and the evictions, the map holds each key once and at most 10,001 windows |
| RateLimit.PruneDropsOnlyExcess | src/server/rate-limit.ts:45-58 | no live window is dropped up to 10,000 live ones, and beyond that only the excess |
| RateLimit.OldestGoFirst | src/server/rate-limit.ts:53-57 | of two live windows the younger is kept whenever the older is |
| RateLimit.LimitersAgree | src/server/rate-limit.ts:29-33 | on every request sequence with a monotone clock and no eviction, the map decides as the script does if and only if the limit is at least one or the window is open |
| RateLimit.AtMostTwice | src/server/rate-limit.ts:29-33 | at most twice the limit is allowed in any interval of one window length |
| RateLimit.AtMostTwiceInMemory | src/server/rate-limit.ts:68-85 | the same for the in-process map |
| Ingest.PathIsAShape | src/server/analytics/ingest.ts:96-150 | a stored path is one of ten shapes whatever was reported, so never the reserved `*` |
| Ingest.ShapesSettled | src/server/analytics/ingest.ts:118-150 | normalising a shape gives that shape |
| Ingest.SamePage | src/server/analytics/ingest.ts:132-141 | a query string, a fragment, a trailing slash and the internal prefix leave the page the same |
| Ingest.AddressIsItsPath | src/server/analytics/ingest.ts:118-130 | an address with a scheme counts as the path in it, and as `/other` when it is none |
| Ingest.TrailingSlashes | src/server/analytics/ingest.ts:134-135 | however many trailing slashes leave the page the same, the front page included |
| Ingest.SegmentHidden | src/server/analytics/ingest.ts:96-106 | product slugs and order codes are never stored, only their shape, or `/other` when the path is longer than 200 characters |
| Ingest.OtherExactly | src/server/analytics/ingest.ts:96-150 | a path is filed under `/other` if and only if it is none of the fixed pages and no single segment under a named one |
| Ingest.DwellBounded | src/server/analytics/ingest.ts:227-231 | dwell is present exactly when reported, between zero and the ceiling, and the rounded report inside them; the ceiling is two minutes unless a positive one is set |
| Ingest.StoredIsBounded | src/server/analytics/ingest.ts:286-331 | every column of a stored event is bounded, and only the columns of its kind are filled |
| Ingest.StoredExactly | src/server/analytics/ingest.ts:316-331 | a report is stored if and only if it is no section view without a known anchor and no search left empty by folding |
| Ingest.KeptExactly | src/server/analytics/ingest.ts:194-314 | what is kept of it: a section's anchor and dwell, a product's slug, the first 64 characters of a folded term and its result count, and neither of these two for other kinds |
| VisitorKey.ShiftIsWholeDays | src/server/analytics/rollup.ts:79-89 | shifting the date, through month and year ends, is shifting by whole days |
| VisitorKey.UtcDayIs | src/server/analytics/rollup.ts:74-89 | the day's midnight, the next one and the previous one are a day's length apart |
| VisitorKey.DateTextInjective | src/server/analytics/visitor-key.ts:52-57 | no two dates print alike |
| VisitorKey.SaltExactly | src/server/analytics/visitor-key.ts:52-57 | two instants share a salt if and only if they share the half-open range the rollup scans |
| VisitorKey.KeysDoNotCrossDays | src/server/analytics/visitor-key.ts:80-84 | what is hashed on two days differs, so a key seen on two days is a collision of the hash |
| VisitorKey.SameInputExactly | src/server/analytics/visitor-key.ts:80-84 | two clients are hashed from the same text if and only if they come on one day with the same address and browser, for addresses without a bar |
| Counting.KeysExact | src/server/analytics/rollup.ts:149-163 | grouping yields each group once, and exactly the groups that have rows |
| Counting.GroupsAddUp | src/server/analytics/rollup.ts:149-163 | the counts of distinct groups add up to the rows that belong to them |
| Rollup.Warehouse.RollupTenantDay | src/server/analytics/rollup.ts:133-301 | the queries and upsert loops leave the raw rows alone and the three tables as specified, and return the four counts; what a distinct count comes to is `Visitors.CountsVisitors` |
| Rollup.RollupIsExact | src/server/analytics/rollup.ts:149-281 | after a rollup with all its events at hand, a day has exactly its groups' rows and no other |
| Rollup.RollupIdempotent | src/server/analytics/rollup.ts:123-125 | running it again changes nothing |
| Rollup.OtherDaysKept | src/server/analytics/rollup.ts:138-139 | rows of other days are untouched |
| Rollup.RowsFromDay | src/server/analytics/rollup.ts:149-231 | a day's rows depend on that day's events alone |
| Rollup.EventsReported | src/server/analytics/rollup.ts:283-293 | the events returned are the day's events of six kinds, each once |
| Rollup.ZeroReportedExactly | src/server/analytics/rollup.ts:38-39 | zero is returned if and only if the day holds searches and section views at most, though rows are written for it |
| Visitors.PathAtMostSite | src/server/analytics/rollup.ts:149-231 | no page has more distinct visitors than the site |
| Visitors.SiteAtMostSum | src/server/analytics/rollup.ts:217-231 | the site's visitors are at most the sum over its pages |
| Visitors.SiteAtMostClients | src/server/analytics/visitor-key.ts:43-57 | a day's visitors are at most the distinct (address, browser) pairs of that UTC day |
| Visitors.CountsVisitors | src/server/analytics/rollup.ts:149-231 | the site's and a page's count are the lengths of duplicate-free lists of exactly the visitors with an event, of any kind, on that day and page |
| Visitors.OneMoreEvent | src/server/analytics/rollup.ts:149-231 | one more event adds one to the day's count, and to its page's, exactly when its visitor had none there |
| Visitors.SiteIsClients | src/server/analytics/visitor-key.ts:43-84 | where the hash does not collide on what it is given that day, the day's visitors are exactly the different clients |
| Retention.RunInv | src/server/jobs/prune-analytics.ts:33-55 | in every run of recording, rolling up and pruning the raw table is the log since the cut and no row is for an event never stored |
| Retention.LogIsReports | src/server/analytics/ingest.ts:316-331 | after any run the log is the reports of the run that count, in order, each with the instant it came in |
| Retention.PrunedExactly | src/server/jobs/prune-analytics.ts:33-55 | in every run a stored event is still a raw row if and only if no prune of the run went up to an instant after it |
| Retention.PrunedDayKept | src/server/analytics/rollup.ts:166-170 | a wholly pruned day is never overwritten |
| Retention.RollMakesExact | src/server/analytics/rollup.ts:133-301 | rolling up an unpruned day makes it exact against every event ever stored, whatever the tables held |
| Retention.StepKeepsExact | src/server/analytics/rollup.ts:123-131 | an exact day that is over stays exact under each step, given it is not rolled up again half pruned |
| Retention.ExactForever | src/server/analytics/rollup.ts:123-131 | so it stays exact in every run from its rollup on |
| Retention.SurvivesExactly | src/server/jobs/prune-analytics.ts:42-44 | a second rollup after a cut keeps every day's rows exact if and only if the cut splits no day |
| Report.WindowIs | src/server/analytics/report.ts:130-134 | the window is today and the days before it, as many as asked for |
| Report.TotalsAreEvents | src/server/analytics/report.ts:235-246 | each total is the number of events of its kind ever stored on the days reported |
| Report.PointsAndPagesAreEvents | src/server/analytics/report.ts:224-255 | a day's point and a page's row count that day's and that page's views |
| Report.VisitorDaysAreDaily | src/server/analytics/report.ts:248 | the headline adds up the distinct counts of the days reported, each day once |
| Report.PointVisitorsAreDaily | src/server/analytics/report.ts:222-230 | looking a day up by its printed date finds that day's distinct count |
| Report.SectionsAreViews | src/server/analytics/report.ts:179-187 | a section's views are the section views ever stored for it on the days reported |
| Report.SectionDwellIs | src/server/analytics/report.ts:256-263 | a section's dwell is the sum of the reported days' dwell, each cut off at 32 bits: at most the true total, and all of it if and only if no reported day overflows |
| Report.OneMoreDwell | src/server/analytics/rollup.ts:172-185 | a day's dwell for a section is nothing at first, and one more event adds its own if it views that section on that day |
| Report.AverageIs | src/server/analytics/report.ts:256-267 | average times views is the total to within half a millisecond a view; without views it is zero |
| Report.TermRowsAreSearches | src/server/analytics/report.ts:283-295 | a term's row counts its searches and those that found nothing; the clamp never bites |
| Report.TermOfIs | src/server/analytics/rollup.ts:267-274 | nor does the rollup's clamp |
| Report.MissedRowsAgree | src/server/analytics/report.ts:188-203 | the missed-terms list shows the same failures and at most the same searches, and the same if and only if the term failed on every reported day on which it was searched |
| Report.MissedShowsFewer | src/server/analytics/report.ts:195-203 | a log, its rolled-up tables and a term with two searches in one list and one in the other |
| NightlyRuns.RunFinished | src/server/analytics/rollup.ts:123-131 | in every run of nightly rollups a day has either no rows at all or exactly its own, and is then over |
| NightlyRuns.ScreenCountsEvents | src/server/analytics/report.ts:142-248 | from the first event to the screen: totals are counts of all events ever stored on the reported days, whatever was pruned |
| Contrast.WcagScale | src/shared/site-contract/contrast.ts:50-58 | the standard's channel formula stays between 0 and 1 and reaches both ends |
| Contrast.RatioIs | src/shared/site-contract/contrast.ts:60-66 | the ratio is symmetric, at least 1, and at least `t` exactly when one side is `t` times the other |
| Contrast.EnsureContrast | src/shared/site-contract/contrast.ts:139-191 | the lightness walk computes its specification |
| Contrast.HslRoundTrip | src/shared/site-contract/contrast.ts:76-131 | hue, saturation and lightness survive the way to the channels and back, for every colour that is no grey |
| Contrast.RgbRoundTrip | src/shared/site-contract/contrast.ts:76-131 | every 24-bit colour comes back from its hue, saturation and lightness |
| Contrast.LightnessIs | src/shared/site-contract/contrast.ts:147-156 | step `i` is `i` fiftieths lighter on a dark background and darker on a light one, as far as the scale goes |
| Contrast.HueKept | src/shared/site-contract/contrast.ts:129-156 | a colour on the way is its channels rounded, and before rounding has the foreground's hue and saturation |
| Contrast.FirstThatPasses | src/shared/site-contract/contrast.ts:153-168 | a failing foreground becomes the first colour on the way that passes |
| Contrast.StrongestOtherwise | src/shared/site-contract/contrast.ts:170-191 | where none does, the outcome is of the greatest contrast among foreground, colours on the way and end of the scale |
| Contrast.EnsureHonest | src/shared/site-contract/contrast.ts:139-191 | the reported ratio is the measured one, never below the input's; `passes` and `adjusted` tell the truth |
| Contrast.RescuesExactly | src/shared/site-contract/contrast.ts:171-183 | every foreground is rescued if and only if the end walked to passes |
| Contrast.MidtonesFail | src/shared/site-contract/contrast.ts:171-183 | at 4.5 to 1 that is every background outside a band of mid-tones, in which black would have passed |
| Contrast.RedIsNotRescued | src/shared/site-contract/contrast.ts:171-183 | on pure red the walk fails for white, and black would have passed |
| Tokens.ReadableFloor | src/templates/tokens.ts:42-57 | black or white reaches the square root of 21 to 1, so 4.58 to 1, on any fill |
| Tokens.UsableExactly | src/templates/tokens.ts:154-172 | a surface is usable if and only if some luminance clears 4.5 to 1 on it and on the background |
| Tokens.Guard | src/templates/tokens.ts:256-303 | the repair loop, the candidates and the choice compute their specification, which is characterised by `GuardRepairs` and `GuardGivesUp` |
| Tokens.GuardRepairs | src/templates/tokens.ts:262-279 | the guard returns the first colour of the repair chain that clears every surface, each repaired by the lightness walk against the first worst surface, up to six repairs |
| Tokens.GuardGivesUp | src/templates/tokens.ts:270-303 | after the sixth repair, or one that does not move, it takes the best of the colour reached and the 256 greys |
| Tokens.GreyOnlyThen | src/templates/tokens.ts:262-303 | a colour that is no repair of the input comes out only if no repair made clears every surface |
| Tokens.WinnerIsFirst | src/templates/tokens.ts:293-302 | the best candidate is the first of the greatest worst ratio |
| Tokens.GuardKeepsGood | src/templates/tokens.ts:262-263 | a colour that clears every surface is returned unchanged |
| Tokens.GuardClears | src/templates/tokens.ts:256-303 | whatever the lightness walk returns, the result clears every surface if any grey does, and is otherwise no worse than any grey |
| Tokens.WorstSurfaceIs | src/templates/tokens.ts:265-267 | the surface adjusted against is the worst one |
| Tokens.WorstSurfaceIsFirst | src/templates/tokens.ts:265-268 | and the first of the worst |
| Tokens.TintFor | src/templates/tokens.ts:336-350 | the search up and down computes its specification |
| Tokens.TintFound | src/templates/tokens.ts:336-350 | the tinted band is distinct from page and deep band whenever one of the thirty tints tried is |
| Tokens.TintIsFirst | src/templates/tokens.ts:336-350 | it is the first distinct one, stronger before weaker at each step, and the plain tint if none is |
| Tokens.FitGround | src/templates/tokens.ts:445-456 | the shrinking walk computes its specification |
| Tokens.FitClears | src/templates/tokens.ts:445-456 | every text clears the shrunk band, if it clears the page |
| Tokens.FitIsStrongest | src/templates/tokens.ts:445-456 | the band kept is the strongest tried that every text clears |
| Tokens.LastGround | src/templates/tokens.ts:439-448 | the last ground tried is the page |
| Tokens.LabelsReadable | src/templates/tokens.ts:37-57 | button labels reach 4.58 to 1 on the brand colours, which pass through untouched |
| Tokens.ChosenSurfaceKept | src/templates/tokens.ts:224-226 | a chosen surface is kept if and only if some luminance serves it and the page, or it is the default |
| Tokens.GoodColorsKept | src/templates/tokens.ts:369-437 | colours that clear all five full-strength grounds come out as chosen, text as text, primary as link, secondary as accent |
| Tokens.DesignedPalette | src/templates/tokens.ts:228-480 | a palette whose text, muted text, primary and secondary colours are readable on the grounds mixed for it gets exactly those mixtures and colours |
| Tokens.BandsDistinct | src/templates/tokens.ts:322-350 | when the full bands fit, the returned tint is at least 1.26 to 1 from the page and 1.18 to 1 from the deep band, if any tint tried is |
| Tokens.TintsTried | src/templates/tokens.ts:336-346 | the thirty tints tried, in thousandths of the way to the primary colour |
| Tokens.BandStrengths | src/templates/tokens.ts:322-461 | whatever the palette, each band is at full strength or both are some eighth of the fallback strengths |
| Tokens.EveryTextReadable | src/templates/tokens.ts:181-480 | if some grey clears 4.5 to 1 on page, surface and alternate, then text, muted text, links and accents clear it on all five returned grounds, for any lightness walk and whether or not the full bands fitted |
| Tokens.OverrideReaches | src/templates/tokens.ts:186-202 | a ground override gives the tokens of a tenant who chose its page, surface and text: its page comes out as it is, its text where readable, its surface where usable |
| Tokens.BorderClears | src/templates/tokens.ts:394-477 | the border clears 3 to 1 on the page when the walk can, and is otherwise at worst the blend it started from |
| Tokens.BorderKept | src/templates/tokens.ts:230-477 | a border mixed at 82 hundredths (76 on a dark page) that clears 3 to 1 is kept as it is |
| Tokens.BlendNear | src/templates/tokens.ts:26-35 | a mixed channel lies within half a level of the weighted mean |
| Tokens.ReadableExactly | src/templates/tokens.ts:181-480 | they are readable for every lightness walk if and only if some grey clears those three, or the four colours clear them as they are |
| Tokens.ServedExactly | src/templates/tokens.ts:139-152 | two luminances share a text luminance if and only if both suit black, both suit white, or they lie far enough apart |
| Tokens.DefaultServedExactly | src/templates/tokens.ts:217-226 | when the derived surface can share a text with its page |
| Palettes.MidPageUnreadable | src/templates/tokens.ts:217-221 | a page whose derived surface shares no luminance with it, so that no token set for it has a readable text |
| Palettes.NarrowBandMissed | src/templates/tokens.ts:281-286 | a usable surface that no grey serves |
| Glob.ToRegExp | scripts/check-track-ownership.ts:276-303 | the scanner's index jumps and accumulator produce the specified text |
| Glob.ReadEmitted | scripts/check-track-ownership.ts:302 | the emitted text of a `?`-free pattern parses to the tree of its tokens |
| Glob.TreeMeansGlob | scripts/check-track-ownership.ts:285-299 | that tree matches exactly what the glob covers, a bare `**` stopping at line terminators |
| Glob.CompiledMatches | scripts/check-track-ownership.ts:276-303 | a `?`-free pattern compiles and tests true on exactly the one-line paths the glob covers |
| Glob.FaithfulExactly | scripts/check-track-ownership.ts:277 | the expression means the glob if and only if the pattern holds no `?` |
| Ownership.Compile | scripts/check-track-ownership.ts:325 | every pattern's expression in order, or nothing when one does not compile |
| Ownership.Check | scripts/check-track-ownership.ts:408-440 | the violations in the order of the files, by testing the compiled expressions; nothing exactly when some pattern does not compile |
| Ownership.ListsExactly | scripts/check-track-ownership.ts:412-440 | a pair is listed if and only if the file is given and that is its verdict; with a verdict for each, all are listed in order |
| Ownership.ListedByGlobs | scripts/check-track-ownership.ts:412-440 | for `?`-free globs and one-line paths, which files are listed as reserved, as forbidden and as outside |
| Ownership.ListedInOrder | scripts/check-track-ownership.ts:412-440 | the violations of a list of files are those of its first part followed by those of its rest |
| Ownership.HitsAreGlobs | scripts/check-track-ownership.ts:326-327 | for `?`-free patterns some expression tests true if and only if some glob covers the file |
| Ownership.VerdictByGlobs | scripts/check-track-ownership.ts:416-440 | a file's verdict in terms of the globs: reserved before owned before forbidden |
| Ownership.CleanExactly | scripts/check-track-ownership.ts:412-440 | no violation if and only if every file is covered by an owned glob and by no reserved one |
| SmtpSink.Sink.OnData | scripts/dev-native.ts:166-195 | a chunk moves the handler to the specified state; captured messages are those logged |
| SmtpSink.ChunkingIsInvisible | scripts/dev-native.ts:166-195 | state, replies and messages depend on the concatenated text alone |
| SmtpSink.SameUpToQuit | scripts/dev-native.ts:188-191 | up to QUIT the client sees the same, however the text is cut and whenever the socket dies after it |
| SmtpSink.MessageArrives | scripts/dev-native.ts:172-181 | a dot-stuffed body arrives as exactly the lines sent, whatever follows it |
| SmtpSink.WholeSession | scripts/dev-native.ts:166-195 | a session of a hello, any number of mails and QUIT is answered command by command, leaves each mail's lines and is hung up on, however its text is cut |
| SmtpSink.LinesReadBackExactly | scripts/dev-native.ts:180 | the lines can be read back from the captured message if and only if none holds a bare line feed |
| SmtpSink.BareLineFeed | scripts/dev-native.ts:168-180 | a line with one is accepted and comes back as two |
| MapUrl.AcceptedIsOnTheGlobe | src/shared/map-url.ts:48-55 | for every input an accepted pair has latitude within 90, longitude within 180, and is not (0, 0) |
| MapUrl.RefusedExactly | src/shared/map-url.ts:101-153 | an input without acceptable coordinates is refused as shortened if and only if a shortener is spelt in it, else as without coordinates if a map host is, else as unrecognised |
| MapUrl.FormReads | src/shared/map-url.ts:76-98 | each of the seven forms yields its two numbers, for all its parameters, separators, zooms and spaces |
| MapUrl.FormParsed | src/shared/map-url.ts:115-146 | parsing a text that holds such a form with acceptable numbers returns them, when no earlier pattern and no earlier place yields an acceptable pair |
| MapUrl.AtPairWins | src/shared/map-url.ts:60-75 | an `@` pair wins over whatever precedes it in the path |
| MapUrl.StreetNumberIgnored | src/shared/map-url.ts:63-68 | a street number in a place's name is not taken for coordinates, whatever the real pair |
| MapUrl.UnacceptableIsSkipped | src/shared/map-url.ts:120-134 | a first candidate off the globe or at Null Island is skipped and the next taken |
| MapUrl.ScanPrinted | src/shared/map-url.ts:58 | a printed number is read back by the number pattern, up to what follows it |
| MapUrl.OnlyTheQuery | src/shared/map-url.ts:76-98 | no pattern matches a printed link anywhere but at its query |
| MapUrl.PrintedThenParsed | src/shared/map-url.ts:115-164 | what parsing a printed link returns, in every case |
| MapUrl.RoundTripExactly | src/shared/map-url.ts:161-164 | coordinates come back from their own link if and only if neither prints with an exponent and they are not (0, 0) |
| MapUrl.PlainExactly | src/shared/map-url.ts:163 | a coordinate prints without an exponent if and only if it is zero or at least a millionth in size |
| MapUrl.RoundTripBySize | src/shared/map-url.ts:161-164 | a link is made if and only if the coordinates are on the globe, and the round trip's condition on the coordinates themselves |

## Left out

- Pages, layouts, styles, seeds and translations, and everything that only draws them.
- `Intl.DateTimeFormat`: a zone is a list of transitions on whole seconds with positive offsets, at least as far apart as the largest
  offset; Asia/Jerusalem is one.
- `Date.UTC` reading years 0 to 99 as 1900 to 1999, and the limits of the time range.
- Calendar.DayRoundTrip: instants are unbounded integers of milliseconds.
- MonthTime.WindowsAndKeysAgree: local years before 0 are excluded; their keys would not read back, and the real formatter never
  shows one, since it prints years before 1 counted backwards and without a sign.
- Overview.Figures: the same, and an offset is at most a day.
- Revenue.MonthlyFiguresAgree: the same. Yearly payments are spread over a year, so for them the two figures differ by design.
- The keyed hash behind visitor keys, with its truncation, is an arbitrary function. Random tokens are not modelled as secrets.
- Tenants, row-level security, transactions and job queues: the analytics model is one tenant's, and a rollup is one step.
- Events recorded with a caller's own time stamp: stored events carry the clock of the step that stores them.
- `::int` casts of counts beyond 32 bits; dwell totals do saturate.
- The order and the length limits of the report's lists, the time series' sort, and the three non-ready states of the screen.
- `maxDwellMs`, search-term folding, known anchors, the slug pattern and `URL` parsing are parameters of ingestion.
- PlatformSettings.Settings.Read: cached JSON is taken to be what a reader of the same key stored.
- A cached entry whose time to live has elapsed is gone at that very instant; cluster behaviour is not modelled.
- Inside `purgeTenant`: object storage, identities, locks. It is a step that begins, reads the clock, and later commits or fails.
- Argument parsing, the file format of captured tombstones, and console output of the replay.
- RateLimit.Limiter.ConsumeSlot: the counter script is one atomic step; a reply lost after the script ran is a call that did not answer.
- MapUrl.RefusedExactly: lower-casing is that of ASCII letters; no other letter folds to one that a host or shortener holds.
- `toUpperCase` is a parameter of the mail sink; listening, files and the messages other connections append are not modelled.
- Tokens.EveryTextReadable: luminance is any function of the channels between 0 and 1 that reaches both ends, of which the
  standard's is one; floating-point rounding is left out. Colours are values, so `#abc` and `#aabbcc` are the same colour.
- `flipGround`, `counterpartGround` and everything after the token set is derived.
- Glob.CompiledMatches: paths are one line long, as file names listed by git without quoting are.
- The regular expressions of the map-link patterns are written as scanners; each pattern is deterministic, so nothing is lost to
  backtracking. `Number` of a matched text is its exact decimal value.
- Git, the ownership tables themselves, and the self-check at start-up.
