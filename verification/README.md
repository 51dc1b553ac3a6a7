# Verified model of Pug's analytics core

Dafny models of the parts of Pug whose correctness rests on more than one function, and proofs of what they promise.

- **Insights.** The daily rollup as an index over the raw events (`RollupStore`, `RollupTrends`, `RollupRefinement`; for several kinds `RollupMulti`, `RollupGrid`, `RollupInputs` over `ShownValues`), the window guard that lets a request use it (`WindowGuard`, `Calendar`), top-K ranking (`TopK`, `TopKRollup`), zero filling (`ZeroFill`), what the numbers and the order of the answers are in plain terms (`RollupMeaning`, `TrendSeriesOrder`), and the Go post-processing of rows: series and `$others` folding for trends (`TrendSeries`, `TrendSeriesLaws`, `TrendSeriesExact`), funnels (`FunnelFold`) and retention (`RetentionFold`), over `Breakdowns` and `TopBreakdowns`.
- **Funnels.** Greedy step matching and its optimality (`FunnelMatching`), accumulation and statistics (`FunnelTiming`, `FunnelStats`, `FunnelLaws`, `FunnelMerge`), and what a row says in seconds, users and ranks (`FunnelMeaning`).
- **Cookieless identity.** Sessions over one Redis key, call by call, as streams and as a concurrent protocol (`SessionState`, `Sessions`, `SessionProtocol`), and the daily salt (`Salt`, `SaltProtocol`).
- **Refresh tokens.** Rotation with reuse detection as in section 4.14.2 of RFC 9700, call by call (`RefreshFamilies`) and statement by statement (`RefreshRaces`).
- **Query text.** Conditions and their text (`Conditions`, `ConditionText`), whole queries (`QueryText`, `QueryBinding`) and their words (`QueryShape`), the builder objects (`QueryBuilder`), LIKE patterns (`Like`).
- **Paging, dashboards, retention.** Keyset paging (`Paging`, `EventReader`, `ProfileSessions`), saving a dashboard (`Dashboards`), the retention cut (`RetentionCut`).

Code that works step by step is a method or a class here, proved against a function of its inputs or its old state; the laws are lemmas about that function. Where two paths or a method and its specification share a definition, a lemma says over the inputs alone what the definition means. Clocks, minted ids, failing commands and scheduling are parameters or left open. Run `dafny verify dfyconfig.toml` to check everything.

Where the code does something other than a reader may expect, a lemma shows it at an input or says exactly when it happens, in most cases both:

- Session times are stored in milliseconds, so two pods can split a visitor at a gap of exactly thirty minutes (`PairwiseGapsAreNotEnough`, `AgreementIsExact`).
- A salt's key outlives its day by the time between computing its lifetime and writing it, although salt.go says "never longer" (`MintedKeyExpiry`).
- A call for a salt that is still running when its day leaves the window can mint a second one (`LateCallsCanDisagree`, `AgreementEndsExactly`).
- A breakdown tuple that spells all `$others` makes the trend grouping panic (`SmallLiteralPanics`, `PanicsExactly`) or count twice (`LargeLiteralCountsTwice`, `GroupingConservesExactly`).
- Filling zeros does not always restore the rows of the CROSS JOIN, although rollup.go says the two achieve the same: a cell with nothing but cookieless events is missing (`CookielessDayIsMissing`, `GridsAgreeExactly`). For a kind asked for once no named value differs (`MultiRefinesRaw`).
- A request may name one kind twice with different metrics; then the raw path ranks the added totals and the rollup each metric alone, and named values can differ, although rollup.go says that its ranking reproduces the raw one exactly (`RepeatedKindDiffers`, `NamedRefinesExactly`).
- A string property may hold a NUL, and then two breakdown tuples can share one series (`KeyNeedsItsConditions`, `KeyNamesExactly`).
- A revocation can miss the successor of a refresh that commits beside it, and the family lives on (`RevocationCanMissTheSuccessor`, `RevocationEndsExactly`).
- Only the first step-0 event anchors a funnel (`LaterAnchorsAreNotTried`, `BestOfAllExactly`).
- In January 1970 the retention cut lies in December 1969 (`JanuaryCutsBeforeTheEpoch`, `CutIsAfterTheEpochExactly`).
- Combining one slice of conditions twice can duplicate some, because zero conditions are compacted in place (`SecondCallDuplicates`, `SecondCallAgreesExactly`).
- Two tiles cannot exchange display names in one save (`ExchangingNamesIsRefused`).

## Model

| member | source | states |
|---|---|---|
| Sessions.Resolver.SessionID | internal/cookieless/session.go:76-141 | one call against the key as it finds it and as others have left it when it mints, with any commands refused: the value written and the id and degrade reason returned |
| Sessions.Resolver.SlideSession | internal/cookieless/session.go:244-262 | last activity only moves forwards; a refused write is reported and changes nothing |
| Sessions.Resolver.MintSession | internal/cookieless/session.go:105-141 | the SET NX GET as others have left the key: mint, adopt the stored session while it is live, stay stale behind it, or overwrite it, with any write refused |
| Sessions.SoloCallResolves | internal/cookieless/session.go:84-141 | undisturbed and healthy, the sequence of Redis commands implements the one-line session rule |
| Sessions.SoloOutcome | internal/cookieless/session.go:76-141 | an undisturbed call with any command refused, in plain terms: joined within thirty minutes of the last activity either way, stranded before it, begun otherwise, and the visitor-day name where a command it needs is refused |
| Sessions.SessionsAreMaximalRuns | internal/cookieless/session.go:84-141 | on a time-sorted stream two events share a session exactly when no gap between them is too long: sessions are the maximal runs |
| Sessions.IdsByRun | internal/cookieless/session.go:84-141 | every event of a stream carries the id minted by the first event of its run |
| Sessions.BreaksOnWholeMillis | internal/cookieless/session.go:264-290 | on whole milliseconds a gap is too long exactly when it exceeds thirty minutes; the watermark is kept in milliseconds, so below that the stored time decides |
| Sessions.WatermarkMonotone | internal/cookieless/session.go:244-262 | for events in any order the stored last activity never moves back |
| Sessions.StrandedIsInvisible | internal/cookieless/session.go:84-141 | an event stranded before the current session leaves the id of every other event unchanged |
| Sessions.StrandedReplays | internal/cookieless/session.go:220-242 | a stranded event replayed after any further traffic is stranded again and gets the same id |
| SessionState.SessionRoundTrip | internal/cookieless/session.go:276-290 | a formatted session parses back to itself, its time cut to the millisecond |
| SessionState.IntRoundTrip | internal/cookieless/session.go:276-290 | every int64 written in decimal parses back, and never holds the separator |
| SessionState.StaleIsNotFallback | internal/cookieless/session.go:220-274 | a stranded session is never taken for the outage fallback of any visitor-day |
| SessionState.StaleGroupsByWindow | internal/cookieless/session.go:220-242 | two stranded events of a visitor-day share an id exactly when they fall in one half-hour window |
| SessionState.FallbackNamesVisitor | internal/cookieless/session.go:272-274 | the outage name determines visitor and day: two visitor-days share it exactly when they are one |
| SessionState.StaleNamesWindow | internal/cookieless/session.go:220-242 | two stranded names are equal exactly for one visitor, one day and one half-hour window |
| SessionState.Watermark | internal/cookieless/session.go:276-290 | what a reader gets back lies at most a millisecond below the stored instant |
| SessionProtocol.Agreement | internal/cookieless/session.go:76-141 | any pods, any schedule, any failures: all stitched calls return one id, every other call returns the visitor-day fallback with its reason |
| SessionProtocol.UntroubledCallsSucceed | internal/cookieless/session.go:76-141 | whatever the others do, a call whose own commands are all answered never falls back and has its session after at most three of them |
| SessionProtocol.AgreementIsExact | internal/cookieless/session.go:76-141 | pods agree under every schedule if and only if every event is within reach of the stored form of every other |
| SessionProtocol.SpreadOnWholeMillis | internal/cookieless/session.go:264-290 | on whole milliseconds that condition is: event times pairwise at most thirty minutes apart |
| SessionProtocol.PairwiseGapsAreNotEnough | internal/cookieless/session.go:264-290 | below a millisecond it is not: two events exactly thirty minutes apart can be split, because the stored time has lost half a millisecond |
| Salt.LifetimeIsTheWindow | internal/cookieless/salt.go:60-70 | the lifetime computation succeeds exactly for the days that are accepted (today and yesterday), and then reaches exactly to the instant the day leaves the window |
| Salt.MintedKeyExpiry | internal/cookieless/salt.go:30-46 | the documented "never longer" holds exactly when the key is written at the instant its lifetime was computed: otherwise the key outlives its day by that delay |
| Salt.MessageInjective | internal/cookieless/cookieless.go:107-119 | the hashed message names project, IP and user agent when only the last may hold a NUL |
| Salt.HealthyCallSucceeds | internal/cookieless/salt.go:91-158 | of a day in the window and with every command answered a call returns the cached salt, else the stored one, else the minted one, and that salt is then cached and stored |
| Salt.RefusedExactly | internal/cookieless/salt.go:91-133 | a call is rejected exactly for what is no day, today or yesterday; it fails exactly when nothing is cached and its GET, or the SETNX a missing key makes it send, does not come back |
| Salt.RereadOutcome | internal/cookieless/salt.go:117-133 | after a lost mint race the other pod's salt is returned and cached, unless the command fails or the key is gone |
| Salt.Resolver.Cache | internal/cookieless/salt.go:147-158 | the cache after an insert and a prune; only today and yesterday remain |
| Salt.Resolver.SaltForDay | internal/cookieless/salt.go:91-158 | one call as cache, GET, SETNX and re-read with any command failing: result, cache and key are those HealthyCallSucceeds and RefusedExactly speak of, other days' keys unchanged |
| Salt.Resolver.MintSalt | internal/cookieless/salt.go:104-133 | the SET NX of a fresh salt and the re-read of a lost race, with either failing |
| SaltProtocol.SaltsAgree | internal/cookieless/salt.go:72-133 | any pods and schedule on a monotone clock, any failures: successful calls for a day that complete before the day leaves the window return one salt, and until then every cached salt is the stored one |
| SaltProtocol.RunIsGood | internal/cookieless/salt.go:91-158 | the invariant of every run: the first salt written for a day stays in its key until the day leaves the window |
| SaltProtocol.LateCallsCanDisagree | internal/cookieless/salt.go:91-133 | for every day and every instant from its leaving the window on: a call that completes then can mint a second salt |
| SaltProtocol.UntroubledCallsSucceed | internal/cookieless/salt.go:91-158 | under every schedule a call whose own commands are all answered is done after at most four of them, and then has the day's one salt unless the day had left the window or not begun |
| SaltProtocol.AgreementEndsExactly | internal/cookieless/salt.go:72-133 | over all calls, schedules and failures, everyone who has a day's salt by an instant has the same one if and only if that instant lies before the day leaves the window |
| RefreshFamilies.AuthService.RefreshSession | internal/core/auth/service.go:682-784 | one refresh with any gate answer and any command failing, from begin to commit, or the consume finding no live row: the reply, the token table and what is committed; a failed transaction publishes nothing |
| RefreshFamilies.AuthService.IssueSession | internal/core/auth/service.go:627-680 | one sign-in: a new family with one live token, or nothing |
| RefreshFamilies.AuthService.RevokeSession | internal/core/auth/service.go:818-830 | sign-out revokes the whole family of the token, known tokens only |
| RefreshFamilies.StepKeepsValid | internal/core/auth/service.go:635-830 | every call, committed or failed, keeps the table and history invariant |
| RefreshFamilies.ReachableIsValid | internal/core/auth/service.go:635-830 | the invariant holds after any run of calls |
| RefreshFamilies.AtMostOneLive | internal/core/auth/service.go:682-784 | after any run a family has at most one unconsumed, unrevoked token |
| RefreshFamilies.ChainsAreLinear | internal/core/auth/service.go:682-784 | after any run each token was redeemed at most once, a family's successes form one chain with constant customer and domain, and nothing succeeded after a kill |
| RefreshFamilies.KillEndsTheFamily | internal/core/auth/service.go:690-830 | once a revocation commits, whatever caused it, no refresh in that family ever yields a session again |
| RefreshFamilies.ReplayEndsTheFamily | internal/core/auth/service.go:690-740 | presenting a consumed token yields no session, and unless a command of its transaction fails no refresh in that family ever does again |
| RefreshFamilies.KilledStaysKilled | internal/core/auth/service.go:690-830 | a killed family has no live token after any further calls |
| RefreshFamilies.RotationShape | internal/core/auth/service.go:742-784 | a successful refresh consumes one live token and adds one of the same family, customer and domain |
| RefreshFamilies.SessionExactly | internal/core/auth/service.go:682-784 | a refresh yields a session if and only if its token is in the table, unconsumed, unrevoked and not yet expired, the account may sign in, the minted token is new, and no command fails or loses its race; the session's token is the minted one |
| RefreshFamilies.RefusalsExactly | internal/core/auth/service.go:690-784 | exactly when the answer is an SSO refusal, and exactly when it is an invalid token |
| RefreshFamilies.RefreshedRows | internal/core/auth/service.go:690-784 | row by row what a refresh leaves: a success spends the token and adds a successor that expires ninety days after now; a replay or an SSO refusal that commits marks the family and no other; anything else changes nothing |
| RefreshFamilies.IssuedRows | internal/core/auth/service.go:635-680 | a sign-in adds one token that expires ninety days after now, or nothing |
| RefreshFamilies.OtherRows | schema/postgres/queries/write/refresh_tokens.sql:41-56 | a sign-out marks the rows of the token's family and no other row; a clean-up drops expired rows and no other |
| RefreshRaces.InterleavingsAreLinear | internal/core/auth/service.go:682-784 | statement by statement, under every interleaving of refreshes and revocations of a family: at most one live token, one chain of rotations, and a refresh that reaches its consume still holds a live row |
| RefreshRaces.RevocationEndsExactly | schema/postgres/queries/write/refresh_tokens.sql:41-46 | a revocation that commits ends the family if and only if no rotation has committed since its UPDATE started, or the family had already ended |
| RefreshRaces.EndedForGood | internal/core/auth/service.go:682-784 | an ended family stays ended under any further interleaving, and none of its tokens is redeemed again |
| RefreshRaces.RevocationCanMissTheSuccessor | internal/core/auth/service.go:690-740 | a run in which a replay's revocation commits and a token of the family yields a session afterwards |
| Breakdowns.KeyInjective | internal/core/insights/executor.go:539-543 | the joined breakdown key names its tuple for NUL-free values of one arity |
| Breakdowns.KeyNamesExactly | internal/core/insights/executor.go:539-543 | among all tuples of its arity a tuple is the only one with its key if and only if it has at most one value or no value holds a NUL |
| Breakdowns.KeyNeedsItsConditions | internal/core/insights/executor.go:539-543 | inputs: with another arity or a NUL in a value two tuples can share a key |
| TrendSeries.GroupSeries | internal/core/insights/executor.go:545-613 | rows become series in order of first appearance, or a length mismatch, or the nil-entry panic |
| TrendSeries.ApplyTrendsTopN | internal/core/insights/executor.go:615-683 | keys and entries after folding every kind in sorted order |
| TrendSeries.FoldOneKind | internal/core/insights/executor.go:640-680 | one kind: the `limit` first keys of the ranking stay, the rest are absorbed into `$others` |
| TrendSeries.MergeTrendPoints | internal/core/insights/executor.go:685-702 | points are merged in place by instant, new instants are appended |
| TrendSeries.KeysMatch | internal/core/insights/executor.go:560-596 | the ordered keys list every entry exactly once |
| TrendSeriesLaws.GroupingConserves | internal/core/insights/executor.go:552-683 | where no kind has a tuple spelled all `$others`: for every kind and instant the series add up to the rows, and a limited grouping returns at most limit + 1 series of a kind |
| TrendSeriesLaws.TopKeysSurvive | internal/core/insights/executor.go:615-683 | a series is named exactly when fewer than `limit` of its kind rank ahead, and every named total is at least every folded one |
| TrendSeriesLaws.FoldedKindFacts | internal/core/insights/executor.go:615-702 | the `$others` series of a folded kind has one point per instant |
| TrendSeriesLaws.PanicsExactly | internal/core/insights/executor.go:615-683 | the grouping panics if and only if some kind folds the very key it folds into, that is an input tuple spells all `$others` and ranks below the limit |
| TrendSeriesLaws.NamedOthersCountTwice | internal/core/insights/executor.go:640-680 | one fold of a ranked list that keeps the all-`$others` key: that series is returned twice, over-counting by exactly its new value |
| TrendSeriesLaws.MergePointsAt | internal/core/insights/executor.go:685-702 | merging points adds their values instant by instant |
| TrendSeriesLaws.MergePointsOneEach | internal/core/insights/executor.go:685-702 | merging keeps one point per instant |
| TrendSeriesLaws.RankIsPosition | internal/core/insights/executor.go:628-650 | a key's place in the ranking is the number of keys that beat it |
| TrendSeriesExact.GroupingCounts | internal/core/insights/executor.go:552-683 | for any rows that do not make the grouping panic: the series of a kind add up at each instant to its rows, plus once more all that ends in `$others` when the kind is folded and has a tuple spelled so |
| TrendSeriesExact.GroupingConservesExactly | internal/core/insights/executor.go:552-683 | the grouping returns series that add up to the rows if and only if every kind that is folded and has an all-`$others` tuple keeps that tuple in its top and has nothing but zeros ending there |
| TrendSeriesExact.PositiveRowsConserveExactly | internal/core/insights/executor.go:552-683 | for positive values: it conserves if and only if no kind with an all-`$others` tuple has more tuples than the limit |
| TrendSeriesExact.SmallLiteralPanics | internal/core/insights/executor.go:640-680 | values 2 for a and 1 for `$others` at limit 1: the panic |
| TrendSeriesExact.LargeLiteralCountsTwice | internal/core/insights/executor.go:640-680 | values 1 for a and 2 for `$others` at limit 1: three is returned as six |
| TrendSeriesOrder.PointsInTime | internal/core/insights/executor.go:598-613 | every series that is returned has its points in order of time |
| TrendSeriesOrder.KeysByAppearance | internal/core/insights/executor.go:552-596 | without a limit the series come in the order in which their rows first appear |
| TrendSeriesOrder.SeriesInOrder | internal/core/insights/executor.go:615-683 | with a limit they come by kind, within a kind the larger total first and ties by breakdown, `$others` behind the others of its kind |
| TopBreakdowns.TopKeys | internal/core/insights/executor.go:786-813 | walking a hash map in any order, the chosen keys are the `limit` highest totals, ties to the smaller key |
| TopBreakdowns.TopIsUnique | internal/core/insights/executor.go:786-813 | that choice is forced, so hash-map order cannot change it |
| TopBreakdowns.SumByPermutation | internal/core/insights/executor.go:844-857 | a sum over rows does not depend on their order |
| FunnelFold.ApplyFunnelTopN | internal/core/insights/executor.go:780-859 | top breakdowns' rows, one `$others` row per folded (step, kind), sorted by tuple and step |
| FunnelFold.TotalsAre | internal/core/insights/executor.go:785-790 | a breakdown's rank total is its summed step-0 value, over exactly the breakdowns with a step-0 row |
| FunnelFold.FoldConserves | internal/core/insights/executor.go:780-859 | folding changes no (step, kind) total |
| FunnelFold.FoldKeepsTheTop | internal/core/insights/executor.go:780-859 | kept rows are untouched, every other row is a `$others` row without timing, at most `limit` breakdowns are kept and they outrank the folded ones |
| FunnelFold.FoldedFunnelNarrows | internal/core/insights/executor.go:780-859 | if no series gains users along the steps, no series of the result does, `$others` included |
| FunnelFold.RowOrder | internal/core/insights/executor.go:844-857 | the result's comparator is a strict weak order |
| FunnelFold.TupleBeforeIs | internal/core/insights/executor.go:844-857 | tuples compare at their first difference, and a beginning comes before the whole |
| FunnelFold.ListedInOrder | internal/core/insights/executor.go:844-857 | the result is listed by tuple, and within a tuple by step |
| RetentionFold.ApplyRetentionTopN | internal/core/insights/executor.go:937-1012 | top breakdowns' rows in order, then one `$others` row per folded (cohort, time) cell with a recomputed percentage |
| RetentionFold.FoldConservesExactly | internal/core/insights/executor.go:977-1012 | cohort sizes per cell are conserved; retained users are conserved if and only if the folded cohorts of the cell have a positive size or no retained users |
| RetentionFold.FoldConserves | internal/core/insights/executor.go:977-1012 | with cohort sizes that are not negative, retained users per cell are conserved |
| RetentionFold.OthersIsAnAverage | internal/core/insights/executor.go:997-1010 | a recomputed percentage is a weighted average: it stays within bounds that hold of every folded row |
| RetentionFold.FoldKeepsTheTop | internal/core/insights/executor.go:940-990 | kept rows are untouched and outrank the folded ones by summed cohort size |
| WindowGuard.GuardIsExact | internal/core/insights/rollup.go:149-185 | for from < to and from <= now the guard holds if and only if the day bounds select exactly the instants of [from, to) before now |
| WindowGuard.PresetsAreAligned | internal/core/dashboards/time_range.go:89-119 | every UTC day preset, and an unknown one without a valid fallback, passes the guard, spans its number of days and ends today |
| WindowGuard.OtherWindowsAlignedExactly | internal/core/dashboards/time_range.go:89-119 | a window in hours or from a valid fallback passes the guard if and only if it begins at midnight and does not end within a past day |
| WindowGuard.PresetLengths | internal/core/dashboards/time_range.go:89-119 | the length of every preset in nanoseconds or days; a valid fallback is returned as it is, and anything else is thirty days |
| RollupStore.RollupIsFaithful | internal/core/insights/rollup.go:17-96 | after any history of inserts and background merges a query on one dimension reads the count and id set of a scan of the inserted events |
| RollupStore.MergeIsInvisible | internal/core/insights/rollup.go:76-96 | background merges change no query |
| RollupStore.RedeliveryOvercounts | internal/core/insights/rollup.go:76-96 | a redelivered event raises the counts that select it and no distinct-id set |
| RollupTrends.SameValue | internal/core/insights/rollup.go:60-96 | any aggregate over any set of cells is equal on both paths |
| RollupTrends.SameCells | internal/core/insights/rollup.go:202-347 | the rollup groups by exactly the cells the selected events fall in |
| RollupTrends.SameRows | internal/core/insights/rollup.go:225-262 | the grain the rollup ranks by is the raw query's own result |
| RollupTrends.RollupRefinesRawTotals | internal/core/insights/rollup.go:202-347 | without a breakdown both paths return the same series for every metric |
| RollupTrends.SegmentationRefinesRaw | internal/core/insights/rollup.go:428-466 | the segmentation scalar over any set of kinds is equal on both paths |
| RollupMeaning.TrendMeans | internal/core/insights/builder.go:395-453 | over any set of cells a trend's value measures exactly the events of its kind in [from, to), no bot unless bots are included, and for a metric about people no id beginning `cookieless-` unless re-admitted: their number, the number of their distinct ids, or the one over the other |
| RollupMeaning.SegmentMeans | internal/core/insights/rollup.go:428-466 | a segmentation measures the same of the events of its kinds |
| RollupMeaning.RollupMeans | internal/core/insights/rollup.go:202-347 | for any history and eligible request the rollup's value is that measure too |
| RollupMeaning.WeekMeans | internal/core/insights/builder.go:1503-1516 | a week begins on the last Sunday not after the day |
| RollupMeaning.MonthMeans | internal/core/insights/builder.go:1503-1516 | a month begins on the last first-of-month of the civil calendar not after the day |
| RollupRefinement.RollupRefinesRaw | internal/core/insights/rollup.go:202-347 | with a breakdown, for any history, eligible request and metric: both paths name the same series with the same points; `$others` exists on both or neither, is equal for event counts and at most the raw one for unique users |
| RollupRefinement.NamedSeries | internal/core/insights/rollup.go:262-330 | the rollup's named series are exactly the top values, with the raw points |
| RollupRefinement.OthersAt | internal/core/insights/rollup.go:262-330 | the rollup's `$others` holds the aggregate of the folded values' events |
| RollupRefinement.RawOthers | internal/core/insights/executor.go:615-683 | the raw `$others` holds the sum of the folded series |
| RollupRefinement.RawKept | internal/core/insights/builder.go:395-453 | the raw path names exactly the top values |
| RollupMulti.MultiRefinesRaw | internal/core/insights/rollup.go:202-424 | with several queries and a breakdown, for any history and any order of the rows, and for every kind that is asked for once whatever the other queries are: the filled rollup and the CROSS JOIN show the same value for each named breakdown at each instant, absent counting as zero; `$others` is equal for event counts and at most the raw one for unique users |
| RollupMulti.NamedRefinesExactly | internal/core/insights/rollup.go:202-424 | for a kind asked for any number of times: the named values are the same on both paths if and only if each of its queries names exactly those of its values that the ranking by their combined totals names |
| RollupMulti.OthersRefine | internal/core/insights/rollup.go:202-424 | and where that holds, `$others` is equal when all its queries count events, and at most the raw one when none is a per-user average |
| RollupMulti.MultiTotalsRefineRaw | internal/core/insights/rollup.go:202-424 | without a breakdown every kind, however often it is asked for, shows at each instant the sum of its queries' values on both paths, for every metric |
| RollupMulti.CrossedValue | internal/core/insights/builder.go:455-560 | the grouping of the CROSS JOIN names the top of the combined ranking with the sums of the queries' values, its zero rows notwithstanding; it has `$others` exactly when more values are scanned than the limit |
| RollupMulti.FillKeepsValues | internal/core/insights/rollup.go:366-424 | grouped without a limit, the filled rows show every value the rows show and drop no series |
| RollupGrid.RawShowsExactly | internal/core/insights/builder.go:455-560 | a kind has, on the raw path, the series of exactly those scanned values that rank below the limit by combined total, zeros by name, and `$others` when there are more |
| RollupGrid.RollupShowsExactly | internal/core/insights/rollup.go:202-424 | on the rollup, those its own queries label and, if none of them is folded, zero series for every label of the other kinds, `$others` among them |
| RollupGrid.LeftOutExactly | internal/core/insights/rollup.go:262-330 | a query's rollup rows have `$others` exactly when it has more values than the limit |
| RollupGrid.GridsAgreeExactly | internal/core/insights/rollup.go:366-424 | where no query is folded, the filled rows cover the same (kind, cell) pairs as the CROSS JOIN if and only if every scanned event falls in a cell that some query counts |
| RollupInputs.CookielessDayIsMissing | internal/core/insights/rollup.go:366-369 | a day with one cookieless visit and two unique-user series: the CROSS JOIN has two zero rows, the rollup none |
| RollupInputs.RepeatedKindDiffers | internal/core/insights/rollup.go:212-262 | one kind by count and by users, two countries, limit 1: the raw path shows b with 4, the rollup a with 2 and b with 2 |
| TopKRollup.TopKRefinesRaw | internal/core/insights/rollup.go:557-671 | for any history, dimension, scope, metric and limit the top-K answer from the rollup is the one over raw events, with and without `$others` |
| RollupMeaning.TopKMeans | internal/core/insights/topk.go:97-205 | each row of the answer measures the eligible events in scope that have its value |
| TopK.TopLeads | internal/core/insights/topk.go:97-205 | the answer lists values of the table with their metric, the leading one first, ties by value, and a value is missing only at the limit and behind all that are listed |
| TopK.OthersFollow | internal/core/insights/rollup.go:600-650 | named rows come first, and then, exactly if some value is not named, one row over all events of such values |
| TopK.OmittingOthersLosesNothing | internal/core/insights/rollup.go:600-650 | the single-pass top-K query is the two-pass query restricted to its named rows, in the same order, for every metric, limit and data set, even when a real value spells the others label |
| TopK.AtMostLimit | internal/core/insights/rollup.go:600-650 | at most `limit` named rows and at most one `$others` |
| TopK.OrderIsUnique | internal/core/insights/rollup.go:640-660 | the ranking order determines the result |
| ZeroFill.FillMultiEventTrendZeros | internal/core/insights/rollup.go:380-424 | for any walk order of the grid: the rows as a prefix, then exactly one zero row for each wanted (kind, cell) without one |
| ZeroFill.FillClosesTheGrid | internal/core/insights/rollup.go:366-424 | added rows are zero, at existing cells, none doubled; a pair has a row afterwards if and only if it had one, or its kind was not folded, or the kind names the value |
| ZeroFill.FillIsIdempotent | internal/core/insights/rollup.go:380-424 | filling twice equals filling once |
| ZeroFill.FillKeepsTotals | internal/core/insights/rollup.go:366-424 | filling changes no series total, and the series it adds have total zero |
| ZeroFill.IdentityInjective | internal/core/insights/rollup.go:363-365 | an identity key names its kind and cell for NUL-free kinds |
| ZeroFill.IdentityNamesExactly | internal/core/insights/rollup.go:363-365 | among all kinds and cells an identity key names its own if and only if neither the kind nor the breakdown key has a NUL |
| ZeroFill.IdentityNeedsPlainKinds | internal/core/insights/rollup.go:363-365 | input: with a NUL in a kind two cells share an identity |
| FunnelMatching.MatchSteps | internal/core/insights/funnel.go:105-127 | the loop over one user's events computes the greedy match |
| FunnelMatching.GreedyIsOptimal | internal/core/insights/funnel.go:105-127 | the matched depth is the greatest length of any chain 0,1,2,... anchored at the first step-0 event within the window (of any chain when the window is 0), and is reached |
| FunnelMatching.BestOfAllExactly | internal/core/insights/funnel.go:105-127 | the match is the longest of all windowed chains if and only if no later step-0 event, taken as the anchor, gets further |
| FunnelMatching.LaterAnchorsAreNotTried | internal/core/insights/funnel.go:105-127 | one input on which a later step-0 event would convert further and is not tried |
| FunnelMatching.SortedHasNoNegativeDelta | internal/core/insights/funnel.go:128-145 | the negative-delta error cannot occur on time-sorted events |
| FunnelMeaning.DepthMeans | internal/core/insights/funnel.go:80-127 | a user gets past a step exactly when events of steps 0 to it can be chosen in order, with a window from the user's first step-0 event on and within that many seconds of it |
| FunnelTiming.ComputeFunnelTiming | internal/core/insights/funnel.go:43-193 | rows per breakdown and step, or the first error in the order the code checks them |
| FunnelTiming.AccumulateUsers | internal/core/insights/funnel.go:80-150 | the per-breakdown books after all users, or the first faulty user |
| FunnelTiming.BookEntry | internal/core/insights/funnel.go:90-150 | each series' book holds exactly its own users |
| FunnelLaws.CountsNeverIncrease | internal/core/insights/funnel.go:128-193 | within a breakdown step counts never increase |
| FunnelLaws.StepZeroConserved | internal/core/insights/funnel.go:128-193 | step-0 counts over all breakdowns sum to the users with a step-0 event |
| FunnelLaws.StatisticsAreSound | internal/core/insights/funnel.go:150-193 | each converted step has least <= median <= p95 <= greatest, an average between the extremes and a histogram counting every converting user once |
| FunnelLaws.TimesMatchCounts | internal/core/insights/funnel.go:128-150 | one time per converting user, none negative, summing to the total |
| FunnelLaws.SortedInputSucceeds | internal/core/insights/funnel.go:43-145 | well-formed, time-sorted input meets no error |
| FunnelMeaning.RowsMean | internal/core/insights/funnel.go:43-193 | with the window in seconds: each row's value is the number of users of its series who convert to its step, and every step of every user's series has a row |
| FunnelMeaning.TimesAre | internal/core/insights/funnel.go:128-150 | the times of a step are those since the step before, one from each user of the series who gets there |
| FunnelMeaning.TimingMeans | internal/core/insights/funnel.go:150-193 | a row's average is the total over the count cut to a whole number, and its median, 95th percentile and histogram are those of the times in ascending order |
| FunnelMerge.MergeFunnelCountsAndTiming | internal/core/insights/funnel.go:195-224 | counts and order come from the count rows; a row takes the last timing given for its step and breakdown, or keeps its own |
| FunnelStats.StatisticsAreOrdered | internal/core/insights/funnel_buckets.go:42-70 | min <= median <= p95 <= max |
| FunnelStats.DistributionCountsSorted | internal/core/insights/funnel_buckets.go:72-84 | the single pass over sorted values equals classifying each value by itself |
| FunnelStats.HistogramTotal | internal/core/insights/funnel_buckets.go:72-84 | every value lands in exactly one bucket |
| FunnelMeaning.P95Means | internal/core/insights/funnel_buckets.go:53-66 | fewer than 95 in 100 values lie below the 95th percentile and at least 95 in 100 do not lie above it |
| FunnelMeaning.MedianMeans | internal/core/insights/funnel_buckets.go:40-51 | the median is the middle value by count, or half the sum of the two middle ones cut towards zero |
| FunnelMeaning.BucketsMean | internal/core/insights/funnel_buckets.go:16-30 | the bounds of the histogram, each bucket closed below and open above |
| RetentionCut.CutIsBounded | internal/core/retention/cut.go:8-25 | a cut is a first of month, at most now minus days and at most the first of the previous month |
| RetentionCut.CutIsLatest | internal/core/retention/cut.go:8-25 | it is the latest such day |
| RetentionCut.CutIsAfterTheEpochExactly | internal/core/retention/cut.go:8-25 | it lies before 1970 if and only if the clock is still in January 1970 |
| RetentionCut.JanuaryCutsBeforeTheEpoch | internal/core/retention/cut.go:8-25 | on 11 January 1970 a one-day policy cuts at 1 December 1969 |
| RetentionCut.CutAdvances | internal/core/retention/cut.go:8-25 | as now advances a cut appears for good and never moves back |
| RetentionCut.LongerRetentionCutsEarlier | internal/core/retention/cut.go:8-25 | more days never cut later |
| RetentionCut.CutExistsExactly | internal/core/retention/cut.go:8-22 | there is a cut if and only if the number of days is positive and fits between 1970 and now, a later clock counting as the end of a duration's range |
| Calendar.MonthOfIs | internal/core/retention/cut.go:23-25 | months are the floor of days on the civil calendar |
| Calendar.MonthStartIsCivil | internal/core/retention/cut.go:23-25 | month lengths counted from 1970 in both directions meet the closed formula of the civil calendar, leap years included |
| Calendar.MonthOfIsCivil | internal/core/retention/cut.go:23-25 | the month of a day is the one whose first day by that formula is the last not after it |
| Conditions.FilterZero | internal/core/clickhouse/query.go:117-125 | the caller's slice holds the non-zero conditions in front and is unchanged behind them |
| Conditions.SecondCallAgreesExactly | internal/core/clickhouse/query.go:117-125 | combining one slice a second time sees the same conditions if and only if no zero condition stood in front of a non-zero one |
| Conditions.SecondCallDuplicates | internal/core/clickhouse/query.go:117-125 | a zero condition in front of one other: the second combination holds that condition twice |
| Conditions.WhenOffIsDropped | internal/core/clickhouse/query.go:110-125 | a condition whose switch is off is as if it were not written, wherever it stands |
| ConditionText.CompileSpells | internal/core/clickhouse/query.go:83-138 | the text of any nesting of And and Or is the spelling of its expression; nothing is left exactly when all is zero |
| ConditionText.WhereReadsBack | internal/core/clickhouse/query.go:364-377 | parsing the WHERE text with AND binding tighter than OR gives back the conjunction of the conditions, each whole |
| ConditionText.WhereSelects | internal/core/clickhouse/query.go:364-377 | applying the parsed WHERE text to a row is applying every non-zero condition |
| ConditionText.NormalMeans | internal/core/clickhouse/query.go:83-138 | the parsed expression holds of exactly the rows the combination means, zero conditions saying nothing |
| ConditionText.FactorBack | internal/core/clickhouse/query.go:127-138 | every grouped expression parses back from its tokens whatever follows |
| ConditionText.RawReadsBackExactly | internal/core/clickhouse/query.go:364-377 | raw texts, each a list of whole expressions with bare ORs between, read back as their conjunction if and only if there is only one or none holds a bare OR |
| ConditionText.BareOrEscapes | internal/core/clickhouse/query.go:364-377 | input: raw text with a bare OR is read with the OR outermost |
| QueryText.SettingsAreLast | internal/core/clickhouse/query.go:320-407 | a build succeeds exactly when every query at any depth has SELECT and FROM and none below the outermost has SETTINGS; then SETTINGS are a suffix of the text of the query without any |
| QueryText.UnionSettingsAreLast | internal/core/clickhouse/query.go:463-496 | the same for a union |
| QueryShape.TrimmedExactly | internal/core/clickhouse/query.go:399 | trimming takes newlines from the end, all of them and nothing else |
| QueryShape.BuildIs | internal/core/clickhouse/query.go:320-407 | word for word: the text before SETTINGS, followed by newlines, is the CTE texts followed by SELECT, FROM, WHERE, GROUP BY, HAVING, ORDER BY and LIMIT, it does not end in a newline, then the SETTINGS; the arguments are those of the clauses in that order |
| QueryShape.PlainCount | internal/core/clickhouse/query.go:320-407 | input: a query with SELECT and FROM alone, word for word |
| QueryShape.UnionIs | internal/core/clickhouse/query.go:463-496 | a union is its branches joined by UNION ALL, then its order, then its SETTINGS, word for word |
| QueryShape.CombinedTexts | internal/core/clickhouse/query.go:83-138 | two conditions or more are joined by the word and put into parentheses, in order and with their arguments |
| QueryBinding.BuildBinds | internal/core/clickhouse/query.go:320-407 | for any nesting of CTEs, binding the i-th placeholder of the built text to the i-th argument gives the query written with its literals in place |
| QueryBinding.UnionBinds | internal/core/clickhouse/query.go:463-496 | the same for a union of queries |
| QueryBinding.CompileFits | internal/core/clickhouse/query.go:83-138 | any nesting of And and Or keeps one placeholder per argument |
| QueryBinding.InBinds | internal/core/clickhouse/query.go:61-72 | In is never dropped, whatever the values, and binds to the list of their literals |
| QueryBinding.WhereBinds | internal/core/clickhouse/query.go:364-377 | the WHERE lines bind to the conditions with their own arguments |
| QueryBuilder.UpsertSetting | internal/core/clickhouse/query.go:163-173 | the loop replaces the value of an existing key or appends |
| QueryBuilder.UpsertSets | internal/core/clickhouse/query.go:163-173 | keys stay unique, the key has the new value, the others keep theirs |
| QueryBuilder.CacheLastWins | internal/core/clickhouse/query.go:256-275 | turning the cache on again leaves one pair, with the last TTL |
| QueryBuilder.SettingsSet | internal/core/clickhouse/query.go:256-302 | key by key what the query cache and the spill threshold set; every other setting stays |
| QueryBuilder.Query.Build | internal/core/clickhouse/query.go:318-407 | text, arguments, error or panic of the query as it and its sub-queries stand; building changes nothing, so building twice agrees |
| QueryBuilder.Query.BuildMain | internal/core/clickhouse/query.go:344-406 | the clauses after the CTEs, in order |
| QueryBuilder.Query.Where | internal/core/clickhouse/query.go:216-225 | non-zero conditions are appended, zero ones skipped |
| QueryBuilder.Query.Select | internal/core/clickhouse/query.go:194-199 | expressions are appended without arguments |
| QueryBuilder.Query.SelectExpr | internal/core/clickhouse/query.go:201-208 | an expression is appended with its arguments |
| QueryBuilder.Query.HavingExpr | internal/core/clickhouse/query.go:232-244 | a HAVING expression is appended with its arguments |
| QueryBuilder.Query.WithQueryCache | internal/core/clickhouse/query.go:256-275 | a TTL that is not positive panics and changes nothing; otherwise the two settings are upserted |
| QueryBuilder.Query.WithSpillThreshold | internal/core/clickhouse/query.go:285-302 | the same for the two spill settings |
| QueryBuilder.Query.DisableTopKDynamicFiltering | internal/core/clickhouse/query.go:276-282 | one setting is upserted |
| QueryBuilder.Query.With | internal/core/clickhouse/query.go:304-316 | the sub-query is held by reference and counts as it stands at the build |
| QueryBuilder.UnionQuery.Build | internal/core/clickhouse/query.go:462-496 | text, arguments, first error or panic of the branches as they stand |
| Like.EscapeLike | internal/core/clickhouse/filters.go:187-193 | the three passes escape each character once |
| Like.NotLikeIsComplement | internal/core/clickhouse/filters.go:492-495 | the negated match, defined on its own, holds of exactly the values the match does not |
| Like.ContainsExactly | internal/core/clickhouse/filters.go:492-495 | the pattern matches a value if and only if the text is a substring of it, whatever characters it holds; NOT LIKE matches exactly the others |
| Paging.NormalizePageSize | internal/core/events/reader.go:478-486 | 100 when nothing positive is asked for, 1000 when more is asked for, and otherwise the size asked for |
| Paging.SeekMeansBelow | internal/core/events/reader.go:516-525 | the cursor condition, built with Or and And, is the lexicographic comparison with the cursor, with its text and arguments |
| Paging.SeekContinues | internal/core/events/reader.go:516-607 | the page after the first k rows is the next rows of the descending list |
| Paging.SortThenWhere | internal/core/events/reader.go:516-560 | sorting the rows past the cursor is picking them from the sorted table |
| EventReader.GetEventExplorer | internal/core/events/reader.go:532-607 | one page, and a cursor exactly when it is full |
| EventReader.PageMeans | internal/core/events/reader.go:516-560 | naming no key: the newest rows past the cursor, newest first, ties by id, and all of them unless the page is full |
| EventReader.FollowCursors | internal/core/events/reader.go:528-607 | over a fixed table with unique keys following cursors ends, lists every row exactly once, newest first with ties by id, in floor(n/p) + 1 pages |
| ProfileSessions.ValuesAgreeExactly | internal/core/events/sessions.go:140-170 | the database's and Go's ordering values differ by at most one and agree if and only if the sort is not duration or the end does not fall earlier within its millisecond than the start |
| ProfileSessions.FinerTimesSkipASession | internal/core/events/sessions.go:154-170 | with times finer than a millisecond a session can be passed over |
| ProfileSessions.IssuedCursorsAreAccepted | internal/core/events/sessions.go:70-104 | every cursor that is handed out passes the decoder's checks |
| ProfileSessions.GetProfileSessions | internal/core/events/sessions.go:213-308 | one page with a cursor exactly when a further row exists, or a sort mismatch |
| ProfileSessions.NextPage | internal/core/events/sessions.go:237-308 | the page after the first k sessions of the list |
| ProfileSessions.FollowCursors | internal/core/events/sessions.go:213-308 | following cursors lists every session exactly once in order, and never ends on an empty page unless there are no sessions |
| ProfileSessions.Normalize | internal/core/events/sessions.go:172-179 | an unknown sort becomes started_at, a known one is kept |
| ProfileSessions.OrderedAsAsked | internal/core/events/sessions.go:140-179 | the list holds the sessions of the table, by start, length or event count as asked |
| Dashboards.Store.UpsertDashboard | internal/core/dashboards/upsert.go:60-320 | one transaction with any statement failing, and the read-back after it: a database error before the commit with nothing stored, a failed read-back with everything stored, or the result and tables of the reconcile function |
| Dashboards.RepeatsId | internal/core/dashboards/upsert.go:61-84 | the seen-id loop finds a repeated non-empty id exactly when there is one |
| Dashboards.WriteRequest | internal/core/dashboards/upsert.go:196-264 | inserts and updates in request order, stopping at the first name conflict, and whether any touched a row |
| Dashboards.SaveReplaces | internal/core/dashboards/upsert.go:140-264 | after a save the dashboard holds exactly the request's tiles under the final ids, other dashboards keep theirs, display names stay unique |
| Dashboards.SaveOutcome | internal/core/dashboards/upsert.go:60-320 | tiles come back in request order, the update time moves exactly when stored tiles or metadata differ, other dashboards are untouched; what is saved is a dashboard of the caller's project and stays in it; a request that is not saved changes nothing |
| Dashboards.ChangedExactly | internal/core/dashboards/upsert.go:183-264 | the tiles-changed flag is true if and only if the stored tiles differ from before |
| Dashboards.SaveIsIdempotent | internal/core/dashboards/upsert.go:31-52 | saving again under the ids that came back changes nothing, not even the update time |
| Dashboards.SavedExactly | internal/core/dashboards/upsert.go:174-262 | past the other checks a request is saved if and only if each tile it changes finds its name free of the new names before it and the old names after it; names of dropped tiles are free, because deletes run first |
| Dashboards.AnsweredExactly | internal/core/dashboards/upsert.go:60-264 | over the inputs: exactly when each answer is given, in this order a repeated id, an encoding failure, a dashboard the project does not have, an id that is not its tile, a taken name, and otherwise saved |
| Dashboards.ExchangingNamesIsRefused | internal/core/dashboards/upsert.go:174-262 | exchanging two tiles' display names in one request is refused, although the names would be unique afterwards |

## Left out

- Redis, Postgres, ClickHouse and NATS clients, logging, telemetry and context handling: only the atomic effect of each command, statement or transaction is modelled; TTLs are applied at full precision.
- Hashes, UUIDs, JWT signing, base64, JSON and proto encoding: identifiers and payloads stand for themselves, injective where the code relies on it and new where it mints.
- Float rounding, HyperLogLog error and int64 overflow of summed durations: values are reals or unbounded integers, distinct counts are exact; only the retention bound saturates as the code does.
- Times are integers counting nanoseconds, time arguments of a query are taken to be bound at full precision, and string order is by character; Go's unstable sort is represented by one stable order (or by any order, where ties can show).
- Redis expiry of session keys: the session protocol assumes the key lives as long as the run.
- Corrupt stored salts: the salt protocol assumes only this code writes the keys.
- RefreshFamilies takes each transaction as one atomic step; RefreshRaces takes one family statement by statement, with row locks at READ COMMITTED, and leaves out expiry, clean-up and failing commands. A commit that reports an error is taken as not having happened.
- Whether an account may sign in (SSO, invites, domains): an arbitrary answer given to each refresh.
- SQL of the rollup's materialized view: taken as one total row per event plus one row per materialized dimension, keyed as the migrations key them.
- RollupRefinement.RollupRefinesRaw: for unique users and per-user averages `$others` is not claimed equal, because the rollup unites the folded id sets where the Go fold adds series; a real breakdown value spelled `$others` is excluded; ingestion without redelivery is assumed (RedeliveryOvercounts says what redelivery does).
- RollupMulti.MultiRefinesRaw: for unique users `$others` is bounded, and for per-user averages nothing is claimed of it, as for one kind.
- RollupMulti.OthersRefine: says nothing of `$others` where the rankings of a repeated kind differ.
- RollupGrid.GridsAgreeExactly: compares rows, and only where no query is folded; RawShowsExactly and RollupShowsExactly give the series in every case.
- Eligibility of a request for the rollup: the query type admits only eligible requests; bucket times of rows are days.
- Text of property expressions, operator routing and event-filter conditions of filters.go beyond EscapeLike and CONTAINS.
- Tokens stand for SQL words: a condition given as raw text is one atom, and its own syntax is not parsed.
- Nil sub-queries and cyclic CTEs: the builder takes existing, acyclic queries.
- Events with equal (time, id) keys before a background merge: the paged table has unique keys and does not change between pages.
- Concurrent deletion of a dashboard between commit and reload, and the column layout of a tile: a tile is its display name and one text for the rest; the content hash names the content.
- GroupFunnelSeries and GroupRetentionSeries: they regroup rows without arithmetic, by the same key as GroupSeries.
- Sessions, user flow and segment-user queries of the insights builder, the top-K of users, attribution and lookup tables, command-line and server wiring.
