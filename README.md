# AWS cost menu app: store, sync and analysis core in Dafny

This project models the part of the AWS cost menu-bar app that decides which numbers it shows. The model has four parts:

- **The daily-cost store (`CostRepository`).** The `daily_costs` table is a map from its unique key (date, account id, service) to the row's account name, cost and currency. Every query is a function of that map:
  - the latest date;
  - the range query with its credit filter;
  - the range total;
  - the per-day totals;
  - the credits sum;
  - the grouped per-account query.

  A `CostRepository` class holds the map. The members the source writes as loops are methods of that class:
  - the transactional upsert;
  - the gap finder (`GetMissingDates`);
  - the per-account summary builder.
- **The sync reconciler (`CostSyncService.RefreshAsync`).** It chooses the start of the fetched range from the forced-sync flag, today's date, the store's latest date and the store's missing days. It then fetches `[syncFrom, yesterday]` from the billing source and upserts the result.
- **The billing source (`AwsCostService`).** It reads the cost-and-usage pages. It keeps only groups with a positive amount. It resolves account names through a cache. Every unknown id makes a new dimension-values call, whose answer fills the cache. It falls back to the raw account id. Each call is given its own answer, so a throttled call followed by a successful one is modelled.
- **The analysis engine (`CostAnalysisService`).** It provides:
  - the calendar windows: month to date, last month, the same day last month clamped to that month's length, and two adjacent 30-day windows;
  - the month-to-date and full-month comparisons under one percentage-change rule;
  - the zero-filled day-by-day pairing of this month with last month;
  - the per-service / per-account comparison over the union of four groupings;
  - the credits summary.
- **The records and row mappers of `Models.cs`.** These are `ServiceAccountRow.FromSummary` and `DayComparisonRow.FromComparison`.

Modelling choices:

- **Dates** are day numbers: day 0 is 0001-01-01, the value of `DateOnly.DayNumber`. `calendar.dfy` gives them the proleptic Gregorian civil conversion, and builds `DaysInMonth`, the first of the month and `AddMonths` on top of it.
- **Date text.** The store keeps dates as `yyyy-MM-dd` text and compares them as text. `date_text.dfy` proves that this text order is the order of the day numbers, and that parsing the text gives back the date.
- **Costs** are exact `real` numbers.
- **Time and remote calls are parameters.** Today's date is a parameter. So are the engine's `IncludeCredits` setting and the answers of the two remote calls.
- **Credits.** A row is a credit when its service name contains "credit", compared ignoring ASCII case as SQLite's `LIKE` does, or when its cost is negative.

Files:

| file | contents |
|---|---|
| `wrappers.dfy` | `Option` |
| `calendar.dfy` | day numbers and the civil calendar |
| `text.dfy` | ordinal string order, the case-insensitive substring test, digit strings |
| `date_text.dfy` | the `yyyy-MM-dd` form |
| `collections.dfy` | ordering a set, sums, sums per group, the descending sort |
| `models.dfy` | records and row mappers |
| `cost_store.dfy` | the store and `CostRepository` |
| `cost_sync.dfy` | `RefreshAsync` and `AwsCostService` |
| `cost_analysis.dfy` | `CostAnalysisService` |

## Model

| member | source | states |
|---|---|---|
| Calendar.DaysInMonth | AWSCostMenuApp/Services/CostAnalysisService.cs:23 | a month has 28 to 31 days, and 29 exactly for February of a leap year |
| Calendar.ToCivil | AWSCostMenuApp/Services/CostAnalysisService.cs:16 | the year, month and day of a date form a valid calendar date that maps back to the same day number |
| Calendar.ToCivilFromCivil | AWSCostMenuApp/Services/CostAnalysisService.cs:18 | building a date from a valid year, month and day and taking it apart again gives the same year, month and day |
| Calendar.MonthStart | AWSCostMenuApp/Services/CostAnalysisService.cs:18 | the first of the month is in the same year and month, on day 1, and lies Day(d) - 1 days before d |
| Calendar.AddMonths | AWSCostMenuApp/Services/CostAnalysisService.cs:19 | the result is k months later, and its day is the original day clamped to the target month's length |
| Calendar.PreviousMonthAdjacent | AWSCostMenuApp/Services/CostAnalysisService.cs:34-38 | the previous month starts on day 1, one month earlier, and ends exactly one day before the given month start |
| Calendar.DayWithinMonth | AWSCostMenuApp/Services/CostAnalysisService.cs:52 | the k-th day after the first of the month has day-of-month k + 1 while it stays within the month |
| Calendar.DateInMonth | AWSCostMenuApp/Services/CostAnalysisService.cs:20-23 | the date with a month's year and month and day `day` is `day` − 1 days after that month's first |
| DateText.Format | AWSCostMenuApp/Services/CostRepository.cs:57 | `yyyy-MM-dd` text is ten characters long |
| DateText.Parse | AWSCostMenuApp/Services/CostRepository.cs:49 | a parsed date lies in the `DateOnly` range |
| DateText.ParseFormat | AWSCostMenuApp/Services/CostRepository.cs:112-118 | parsing the stored text of a date gives back that date |
| DateText.FormatOrder | AWSCostMenuApp/Services/CostRepository.cs:56 | comparing stored dates as text agrees with comparing the dates, both for order and for equality |
| Text.StrLessIsStrictTotalOrder | AWSCostMenuApp/Services/CostAnalysisService.cs:113 | the ordinal string order used for ORDER BY and OrderBy is a strict total order |
| Text.IntText | AWSCostMenuApp/Models/Models.cs:86 | the decimal text of a number is non-empty and starts with '-' exactly when the number is negative |
| Collections.SortSet | AWSCostMenuApp/Services/CostAnalysisService.cs:113 | ordering a set gives each element exactly once, strictly ascending |
| Collections.SortDescending | AWSCostMenuApp/Services/CostRepository.cs:196 | the descending sort is a permutation of its input and is non-increasing in the key |
| Collections.SumByGroups | AWSCostMenuApp/Services/CostRepository.cs:145-148 | summing per group over distinct group keys that cover every row gives the plain sum |
| Collections.SumWhereByGroups | AWSCostMenuApp/Services/CostRepository.cs:194-195 | the group sums over distinct keys add up to the sum over an outer key, when a row's key is listed exactly when its outer key matches |
| Collections.SumWhereSameSelection | AWSCostMenuApp/Services/CostRepository.cs:169-172 | two keys that pick out the same rows give the same sum |
| Models.TruncateName | AWSCostMenuApp/Models/Models.cs:62 | names of at most 40 characters are kept; longer ones become their first 37 characters plus "...", 40 characters in all |
| Models.PercentCell | AWSCostMenuApp/Models/Models.cs:65 | the percent cell is "-" exactly when the base is at most 0, and otherwise carries the percentage |
| Models.Direction | AWSCostMenuApp/Models/Models.cs:66 | the direction is "-" exactly when the base is at most 0, and otherwise "↑" exactly when the flag is up and "↓" exactly when it is down |
| Models.FromSummary | AWSCostMenuApp/Models/Models.cs:61-73 | the name is truncated; costs and both IsUp flags are copied; each percent/direction pair is "-" together exactly when its base cost is at most 0, and otherwise shows the percentage with "↑" exactly when its flag is up |
| Models.Abs | AWSCostMenuApp/Models/Models.cs:89 | the magnitude is non-negative and is the value or its negation |
| Models.FromComparison | AWSCostMenuApp/Models/Models.cs:85-93 | the day is the day number's text; both costs are copied; the difference is "-" exactly when it is 0 and otherwise shows its magnitude with "↑" exactly when it is positive; the percent is "-" exactly when last month is at most 0; IsUp is difference >= 0; IsTotal is false |
| CostStore.FactAt | AWSCostMenuApp/Services/CostRepository.cs:117-123 | a row read back from the table carries its key and the values stored under it |
| CostStore.KeyLessIsStrictTotalOrder | AWSCostMenuApp/Services/CostRepository.cs:109 | ORDER BY date, account_id, service is a strict total order on keys |
| CostStore.LatestDate | AWSCostMenuApp/Services/CostRepository.cs:41-50 | the result is absent exactly when the table is empty; otherwise it is the date of a stored row and no stored date is later |
| CostStore.CostsForDateRange | AWSCostMenuApp/Services/CostRepository.cs:100-125 | every row returned is a stored row inside the range that passes the credit filter; every such stored row is returned; rows are strictly ascending by (date, account, service) |
| CostStore.FactsAtContents | AWSCostMenuApp/Services/CostRepository.cs:105-109 | reading the rows of a key list gives exactly the rows under those keys, and ascending keys give ascending rows |
| CostStore.IsCreditService | AWSCostMenuApp/Services/CostRepository.cs:205 | a service is a credit exactly when it contains "Credit" under SQLite's LIKE, ASCII case ignored on both sides |
| CostStore.IsCreditCost | AWSCostMenuApp/Services/CostRepository.cs:205 | the credits query's condition: the service is LIKE '%Credit%' or the cost is negative |
| CostStore.NotCreditCost | AWSCostMenuApp/Services/CostRepository.cs:103 | the filter added when credits are excluded keeps exactly the rows the credits query does not select |
| CostStore.FilteredQueryIsFilter | AWSCostMenuApp/Services/CostRepository.cs:103 | with credits excluded, the range query returns exactly the credit-included rows that are not credits, in the same order |
| CostStore.TotalForDateRange | AWSCostMenuApp/Services/CostRepository.cs:127-137 | the total is 0 when no row is selected, and non-negative when every selected cost is |
| CostStore.CreditsForDateRange | AWSCostMenuApp/Services/CostRepository.cs:199-211 | the credits sum is non-negative, ignores the credits toggle, and is 0 when no row in range is a credit |
| CostStore.TotalsDifference | AWSCostMenuApp/Services/CostRepository.cs:130-132 | the unfiltered total minus the filtered total is the signed sum over the credit rows in range |
| CostStore.CreditsVersusTotals | AWSCostMenuApp/Services/CostRepository.cs:199-206 | excluding credits changes the total by at most the credits sum, and by exactly that sum when every credit row has a cost of at most 0 |
| CostStore.SignedWithinAbsolute | AWSCostMenuApp/Services/CostRepository.cs:202 | a signed sum lies within plus or minus the sum of magnitudes, and is its negation when no cost is positive |
| CostStore.DayRows | AWSCostMenuApp/Services/CostRepository.cs:144-150 | one row per listed date, in order, holding the sum of that date's costs |
| CostStore.DailyTotals | AWSCostMenuApp/Services/CostRepository.cs:139-159 | dates strictly ascending; exactly the dates that have selected rows; each value is the sum of that date's selected costs |
| CostStore.GroupByDate | AWSCostMenuApp/Services/CostRepository.cs:144-149 | over any rows: dates strictly ascending, exactly the dates of the rows, each with the sum of its rows' costs |
| CostStore.DailyTotalsInRange | AWSCostMenuApp/Services/CostRepository.cs:147 | every per-day entry lies inside [from, to] |
| CostStore.DayRowsCover | AWSCostMenuApp/Services/CostRepository.cs:148 | every listed date has its row |
| CostStore.DayRowsSum | AWSCostMenuApp/Services/CostRepository.cs:145-148 | the per-day rows add up to the sum of the rows grouped by those dates |
| CostStore.DailyTotalsAddUp | AWSCostMenuApp/Services/CostRepository.cs:139-159 | the per-day totals add up to the range total |
| CostStore.Upsert | AWSCostMenuApp/Services/CostRepository.cs:79-86 | upserting one row inserts or overwrites its key with the row's name, cost and currency, and leaves every other key unchanged |
| CostStore.ApplyBatchAt | AWSCostMenuApp/Services/CostRepository.cs:77-95 | after a batch, each key holds the last write to it in the batch, or its old value when the batch does not write it |
| CostStore.LastWriteShape | AWSCostMenuApp/Services/CostRepository.cs:82-85 | a key the batch writes ends with the batch's last value, whatever it held before |
| CostStore.ApplyBatchLastWins | AWSCostMenuApp/Services/CostRepository.cs:77-95 | the last element of the batch with a given key decides that key's row |
| CostStore.ApplyBatchUntouched | AWSCostMenuApp/Services/CostRepository.cs:77-95 | a key the batch does not write keeps its presence and its value |
| CostStore.ApplyBatchIdempotent | AWSCostMenuApp/Services/CostRepository.cs:74-98 | upserting the same batch twice leaves the table as upserting it once |
| CostStore.CostRepository.constructor | AWSCostMenuApp/Services/CostRepository.cs:22-33 | a new database has no rows |
| CostStore.CostRepository.UpsertCosts | AWSCostMenuApp/Services/CostRepository.cs:74-98 | the transaction commits exactly when no element throws, and then the table is the batch applied in order; otherwise the table is unchanged |
| CostStore.CostRepository.GetMissingDates | AWSCostMenuApp/Services/CostRepository.cs:52-72 | the result is strictly ascending and holds exactly the days of [from, to] with no stored row; it is empty when from > to |
| CostStore.GroupLessIsStrictTotalOrder | AWSCostMenuApp/Services/CostRepository.cs:172-173 | the grouped query's order is a strict total order on groups |
| CostStore.GroupRows | AWSCostMenuApp/Services/CostRepository.cs:169-172 | one row per group, in order, holding the group's sum of costs |
| CostStore.GroupByAccountService | AWSCostMenuApp/Services/CostRepository.cs:168-174 | over any rows: each (account, name, service) group that occurs is listed exactly once, strictly ascending by group, with the sum of its rows |
| CostStore.ServiceTotals | AWSCostMenuApp/Services/CostRepository.cs:161-175 | the grouped query lists each (account, name, service) group of the selected rows exactly once, strictly ascending by account and service, with the group's sum |
| CostStore.GroupRowsCover | AWSCostMenuApp/Services/CostRepository.cs:172 | each listed group has its row |
| CostStore.SummaryOf | AWSCostMenuApp/Services/CostRepository.cs:186-191 | the summary built for an account carries that account's id |
| CostStore.ServiceCostsOfKeys | AWSCostMenuApp/Services/CostRepository.cs:191 | an account's service map has an entry for each service of its rows and no other |
| CostStore.SummaryTotals | AWSCostMenuApp/Services/CostRepository.cs:191-195 | an account's total is the sum of its per-service costs, and it has one entry per service of its rows |
| CostStore.LastRowFor | AWSCostMenuApp/Services/CostRepository.cs:180-192 | the index found is a row for the account and service, and no later row is; -1 means no row is |
| CostStore.ServiceCostIsLastRow | AWSCostMenuApp/Services/CostRepository.cs:191 | a service has an entry exactly when some grouped row is for the account and service, and the entry is the total of the last such row |
| CostStore.GroupedServices | AWSCostMenuApp/Services/CostRepository.cs:168-191 | over the grouped query, an account's services are exactly the services of its selected rows |
| CostStore.ServicesOfGroups | AWSCostMenuApp/Services/CostRepository.cs:168-191 | rows that list exactly the groups of the stored rows give an account exactly the services of its stored rows |
| CostStore.GroupedServiceCost | AWSCostMenuApp/Services/CostRepository.cs:168-191 | with any account names, each service entry is the sum of the selected rows of one (account, name, service) group, the one whose grouped row comes last |
| CostStore.OneNameServiceCost | AWSCostMenuApp/Services/CostRepository.cs:168-191 | with one name per account id, a service entry is the sum of the account's selected rows for that service |
| CostStore.ServiceSumsAddUp | AWSCostMenuApp/Services/CostRepository.cs:194-195 | per-service sums over all of an account's services add up to the sum of all the account's rows |
| CostStore.OneNameSummary | AWSCostMenuApp/Services/CostRepository.cs:168-195 | with one name per account id, an account's summary has an entry per service of its rows holding that service's sum, and its total is the sum of all its rows |
| CostStore.AccountSummariesSums | AWSCostMenuApp/Services/CostRepository.cs:161-197 | with one name per account id among the selected rows, every returned summary's per-service costs and total are the sums of that account's selected rows |
| CostStore.AccountOrderContents | AWSCostMenuApp/Services/CostRepository.cs:186-188 | the accounts enter the dictionary once each, and every account of the rows enters it |
| CostStore.PermutationKeepsDistinct | AWSCostMenuApp/Services/CostRepository.cs:196 | reordering a list without repeats gives a list without repeats |
| CostStore.SummariesStep | AWSCostMenuApp/Services/CostRepository.cs:180-192 | reading one grouped row into the dictionary keeps the loop invariant: each account's summary so far is its summary over the rows read |
| CostStore.SummariesInOrder | AWSCostMenuApp/Services/CostRepository.cs:194-195 | the finished summaries list each account in the order it first occurs, with its summary |
| CostStore.SummariesInOrderFacts | AWSCostMenuApp/Services/CostRepository.cs:186-195 | the finished summaries have no repeats, each is its account's summary, and every account has one |
| CostStore.FinishedSummaries | AWSCostMenuApp/Services/CostRepository.cs:194-195 | once every row is read, setting each total to its service sum gives the summaries in first-occurrence order |
| CostStore.AccountSummaries | AWSCostMenuApp/Services/CostRepository.cs:161-197 | the summaries are non-increasing in total, one per account with rows, each being that account's summary |
| CostStore.ReadSummaries | AWSCostMenuApp/Services/CostRepository.cs:180-196 | the reader loop (one entry per account, created on first sight, each row setting its service's cost) followed by the descending sort yields the account summaries of the rows |
| CostStore.CostRepository.GetAccountSummaries | AWSCostMenuApp/Services/CostRepository.cs:161-197 | the dictionary-filling loop returns the account summaries of the grouped query over the table |
| CostSync.PlannedSyncFrom | AWSCostMenuApp/Services/CostSyncService.cs:26-39 | a forced sync or an empty store starts 60 days back; otherwise the start is the day after the latest date, but no later than three days back; every branch starts at least three days back |
| CostSync.GapCheckIsNoOp | AWSCostMenuApp/Services/CostSyncService.cs:41-45 | when the missing days are computed on the same store, a non-forced sync finds none only if its start is already three days back, so the override never changes it |
| CostSync.CatchUpExample | AWSCostMenuApp/Services/CostSyncService.cs:33-35 | today 2024-03-15 with latest 2024-03-10 starts the sync on 2024-03-11 |
| CostSync.RangeAsText | AWSCostMenuApp/Services/CostSyncService.cs:78-82 | a date lies in from..until exactly when its text is at least the text of `from` and below the text of `until` + 1 |
| CostSync.RequestInterval | AWSCostMenuApp/Services/CostSyncService.cs:78-82 | the request's start text parses to `from` and its exclusive end to `to` + 1, so a day lies in [from, to] exactly when its text lies in [start, end) |
| CostSync.GroupItems | AWSCostMenuApp/Services/CostSyncService.cs:100-102 | each group of a result is read with that result's day, in order |
| CostSync.Loaded | AWSCostMenuApp/Services/CostSyncService.cs:135-137 | after loading the directory, the cache holds its old ids and every listed id |
| CostSync.LoadedOverrides | AWSCostMenuApp/Services/CostSyncService.cs:135-137 | loading the directory overrides cached names with the directory's names and keeps the rest |
| CostSync.ResolveName | AWSCostMenuApp/Services/CostSyncService.cs:119-143 | a cached id returns its cached name with the cache unchanged; an unknown id gets the name its call's answer lists for it, or the raw id when the answer does not list it or the call throws, whatever the old cache held; a successful answer overrides the cache with its names, and a throwing call leaves the cache unchanged |
| CostSync.PositiveItems | AWSCostMenuApp/Services/CostSyncService.cs:106 | every kept group has a positive amount |
| CostSync.FetchKeepsPositiveGroups | AWSCostMenuApp/Services/CostSyncService.cs:97-111 | the fetched costs are the positive groups in order, each carrying its day, account, service, amount and unit |
| CostSync.CacheAfter | AWSCostMenuApp/Services/CostSyncService.cs:133-137 | the cache after the first n calls of a fresh service holds only names that one of those calls listed for their ids |
| CostSync.ListedLater | AWSCostMenuApp/Services/CostSyncService.cs:133-137 | a name listed by one of the first n calls is still listed by one of any later prefix of the calls |
| CostSync.CacheAfterNext | AWSCostMenuApp/Services/CostSyncService.cs:133-141 | one more call loads its answer over the cache when it succeeds and leaves the cache as it was when it throws |
| CostSync.FreshStep | AWSCostMenuApp/Services/CostSyncService.cs:106-108 | reading one group keeps the cache equal to the successful answers loaded in call order, and a new cost is named by its raw id or by a name one of the calls so far listed |
| CostSync.FreshCacheNames | AWSCostMenuApp/Services/CostSyncService.cs:119-142 | from an empty cache, the final cache is every successful answer loaded in call order, and every fetched cost is named by its raw id or by a name some call listed for its account; calls may get different answers, so one account can be named both ways in a sync |
| CostSync.SteadyDirectoryNames | AWSCostMenuApp/Services/CostSyncService.cs:119-142 | when every call gets the same answer, every fetched cost is named by that answer's entry for its account, or by its raw id |
| CostSync.FetchedCostsPositive | AWSCostMenuApp/Services/CostSyncService.cs:106-109 | every fetched cost is positive |
| CostSync.PositiveBatchWritesPositive | AWSCostMenuApp/Services/CostSyncService.cs:48 | upserting only positive costs leaves every row either untouched or positive |
| CostSync.AwsCostService.constructor | AWSCostMenuApp/Services/CostSyncService.cs:54 | a new source has an empty name cache |
| CostSync.AwsCostService.GetAccountName | AWSCostMenuApp/Services/CostSyncService.cs:119-143 | the returned name and the new cache are those of the name-resolution rule applied to the old cache and to the answer of the next call; an uncached id makes exactly one call, a cached id none |
| CostSync.AwsCostService.ReadGroups | AWSCostMenuApp/Services/CostSyncService.cs:100-110 | the groups of one day, in order, extend the costs and the name cache exactly as one fetch step per group does |
| CostSync.AwsCostService.GetCostsForDateRange | AWSCostMenuApp/Services/CostSyncService.cs:75-117 | the page loop returns the costs, and leaves the name cache, that the fetch rule gives for the groups of all pages in order |
| CostSync.FetchNextGroup | AWSCostMenuApp/Services/CostSyncService.cs:100-110 | reading one more group is one fetch step |
| CostSync.NextResultItems | AWSCostMenuApp/Services/CostSyncService.cs:97-111 | reading one more result appends its groups |
| CostSync.RefreshAsync | AWSCostMenuApp/Services/CostSyncService.cs:20-49 | the start is the planned one; a failed fetch changes nothing; otherwise the fetched costs are upserted, all or nothing |
| CostSync.RefreshWritesOnlyPositiveCosts | AWSCostMenuApp/Services/CostSyncService.cs:47-48 | after a refresh every row is either untouched or written by the sync with a positive cost |
| CostAnalysis.MonthToDateWindow | AWSCostMenuApp/Services/CostAnalysisService.cs:18-25 | the window runs from the first of today's month to today, Day(today) days |
| CostAnalysis.LastMonthWindow | AWSCostMenuApp/Services/CostAnalysisService.cs:48-55 | the whole previous month, from its first day and as long as that month, ending the day before this month starts |
| CostAnalysis.MonthBeforeLastWindow | AWSCostMenuApp/Services/CostAnalysisService.cs:34-38 | the whole month before last, ending the day before last month starts |
| CostAnalysis.LastMonthToDateWindow | AWSCostMenuApp/Services/CostAnalysisService.cs:19-26 | from the first of last month to day min(today's day, last month's length), always inside last month |
| CostAnalysis.MonthPrefix | AWSCostMenuApp/Services/CostAnalysisService.cs:20-23 | the first `day` days of a whole month stay inside it and end on its day `day` |
| CostAnalysis.Rolling30Window | AWSCostMenuApp/Services/CostAnalysisService.cs:99-100 | the 30 days ending yesterday |
| CostAnalysis.Previous30Window | AWSCostMenuApp/Services/CostAnalysisService.cs:100-102 | the 30 days ending the day before the rolling window starts |
| CostAnalysis.PercentChange | AWSCostMenuApp/Services/CostAnalysisService.cs:191-194 | with a non-zero previous value, percent × previous = (current − previous) × 100; with previous 0, 100 when current is non-zero and 0 otherwise |
| CostAnalysis.PercentChangeSign | AWSCostMenuApp/Services/CostAnalysisService.cs:121-129 | with a positive previous value the percentage is non-negative exactly when current ≥ previous, so it agrees with the IsUp flag |
| CostAnalysis.CreateComparison | AWSCostMenuApp/Services/CostAnalysisService.cs:191-196 | label, current and previous are kept; previous + difference = current; the percentage follows the percentage-change rule |
| CostAnalysis.MonthToDateComparison | AWSCostMenuApp/Services/CostAnalysisService.cs:14-29 | compares the month-to-date total with last month's total up to the same day |
| CostAnalysis.FullMonthComparison | AWSCostMenuApp/Services/CostAnalysisService.cs:31-44 | compares last month's total with the total of the month before, labelled by the two months |
| CostAnalysis.CreditsSummary | AWSCostMenuApp/Services/CostAnalysisService.cs:148-158 | the month-to-date and last-month credits, both non-negative and independent of the credits toggle |
| CostAnalysis.DayOfMonthTotals | AWSCostMenuApp/Services/CostAnalysisService.cs:51-52 | every day-of-month key is at least 1 |
| CostAnalysis.TotalsByKeyListed | AWSCostMenuApp/Services/CostAnalysisService.cs:52 | every key of the dictionary is the key of some listed date |
| CostAnalysis.ValueOrZero | AWSCostMenuApp/Services/CostAnalysisService.cs:63-64 | the value of a present key, 0 for a missing one |
| CostAnalysis.MaxKey | AWSCostMenuApp/Services/CostAnalysisService.cs:59-60 | 0 for an empty map, otherwise its largest key |
| CostAnalysis.Max | AWSCostMenuApp/Services/CostAnalysisService.cs:58-60 | the larger of two numbers |
| CostAnalysis.DayRow | AWSCostMenuApp/Services/CostAnalysisService.cs:62-68 | one day's row: both month values zero-filled, last month + difference = this month, the percentage follows the rule |
| CostAnalysis.DayPairs | AWSCostMenuApp/Services/CostAnalysisService.cs:58-69 | exactly maxDay rows, row i being day i + 1 |
| CostAnalysis.TotalsByKeyAt | AWSCostMenuApp/Services/CostAnalysisService.cs:51-52 | with the days listed in ascending order and keyed by their offset from the window's 1st, each day is found under its key with its own total, no later day replacing it |
| CostAnalysis.TotalsByKeyEntries | AWSCostMenuApp/Services/CostAnalysisService.cs:51-52 | keyed by offset, the dictionary of daily totals holds exactly the days that have rows, each with the sum of its rows |
| CostAnalysis.DayOfMonthTotalsEntries | AWSCostMenuApp/Services/CostAnalysisService.cs:51-52 | for a window inside one month, the day-of-month dictionary holds day k exactly when the window's (k−1)-th day has rows, with that day's sum |
| CostAnalysis.MonthByDayEntries | AWSCostMenuApp/Services/CostAnalysisService.cs:51-56 | inside one month, day k is a key exactly when the (k−1)-th day of the window has rows, with that day's sum |
| CostAnalysis.DayByDayComparison | AWSCostMenuApp/Services/CostAnalysisService.cs:46-70 | over this month to date and the whole of last month: row i is day i + 1 with each month's sum for that day (0 when absent), their difference and the percentage-change rule; every day with data has a row; empty exactly when neither month has data |
| CostAnalysis.DayByDayRows | AWSCostMenuApp/Services/CostAnalysisService.cs:46-70 | row i is day i + 1 with this month's and last month's sums for that day (0 when absent), their difference and the percentage-change rule |
| CostAnalysis.DayByDayCoversDays | AWSCostMenuApp/Services/CostAnalysisService.cs:58-62 | every day with data in either month has its row |
| CostAnalysis.DayByDayLastRow | AWSCostMenuApp/Services/CostAnalysisService.cs:58-62 | the last row's day has data in one of the two months |
| CostAnalysis.DayByDayEmpty | AWSCostMenuApp/Services/CostAnalysisService.cs:58-62 | the comparison is empty exactly when neither month has data |
| CostAnalysis.DayByDayWindows | AWSCostMenuApp/Services/CostAnalysisService.cs:47-56 | the day-by-day comparison pairs this month to date with the whole of last month, both inside one month |
| CostAnalysis.GroupingKey | AWSCostMenuApp/Services/CostAnalysisService.cs:180-187 | grouping is by service, or by account name (not account id) |
| CostAnalysis.GroupTotals | AWSCostMenuApp/Services/CostAnalysisService.cs:177-189 | one entry per name that occurs, holding that name's sum of costs |
| CostAnalysis.GroupValue | AWSCostMenuApp/Services/CostAnalysisService.cs:116-119 | a name's zero-filled group value is its sum of costs |
| CostAnalysis.SumOfKeysIsSumOfGroups | AWSCostMenuApp/Services/CostAnalysisService.cs:183 | adding up a map's values at distinct names equals adding up the rows grouped by those names |
| CostAnalysis.GroupTotalsAddUp | AWSCostMenuApp/Services/CostAnalysisService.cs:181-187 | the group sums add up to the sum of all rows |
| CostAnalysis.CostsByGrouping | AWSCostMenuApp/Services/CostAnalysisService.cs:177-189 | one entry per service (or account name) carried by a row of the window; read with a default of zero, each name's value is the sum of its rows' costs; the values add up to the window's total |
| CostAnalysis.SummaryRow | AWSCostMenuApp/Services/CostAnalysisService.cs:121-134 | the four costs are kept; both percentages follow the rule; MtdIsUp is mtd ≥ lastSameDay and FullMonthIsUp is lastFull ≥ prevFull |
| CostAnalysis.CompareGroupings | AWSCostMenuApp/Services/CostAnalysisService.cs:109-135 | one row per name of the union, strictly ascending by name, each built from the four zero-filled values |
| CostAnalysis.GridFor | AWSCostMenuApp/Services/CostAnalysisService.cs:113-135 | one line per name of the given set, strictly ascending by name, each built from the four zero-filled values |
| CostAnalysis.GridNameOnce | AWSCostMenuApp/Services/CostAnalysisService.cs:113-115 | every name of the set has exactly one line |
| CostAnalysis.EveryNameOnce | AWSCostMenuApp/Services/CostAnalysisService.cs:109-115 | every name of the union has exactly one row |
| CostAnalysis.ComparisonGroupings | AWSCostMenuApp/Services/CostAnalysisService.cs:104-113 | the names compared are those carried by a row of month to date, last month to the same day, the rolling 30 days or the 30 days before |
| CostAnalysis.ServiceAccountComparison | AWSCostMenuApp/Services/CostAnalysisService.cs:88-136 | one row per name of the four windows, strictly ascending by name; each row's four costs are the name's sums over month to date, last month to the same day, the rolling 30 days and the 30 days before, with the two percentage changes and up flags built from them |
| CostAnalysis.ServiceComparison | AWSCostMenuApp/Services/CostAnalysisService.cs:138-141 | the by-service rows, reordered by non-increasing month-to-date cost |
| CostAnalysis.AccountComparison | AWSCostMenuApp/Services/CostAnalysisService.cs:143-146 | the by-account rows, reordered by non-increasing month-to-date cost |
| CostAnalysis.ArrowsAgreeWithPercentages | AWSCostMenuApp/Services/CostAnalysisService.cs:121-133 | on a built row, the grid's "↑" appears exactly when the shown percentage is non-negative |
| CostAnalysis.AccountSummariesThisMonth | AWSCostMenuApp/Services/CostAnalysisService.cs:72-77 | the account summaries of this month to date |
| CostAnalysis.AccountSummariesLastMonth | AWSCostMenuApp/Services/CostAnalysisService.cs:79-86 | the account summaries of the whole of last month |

## Left out

- Date range: `DateOnly` holds years 1 to 9999, and `AddDays`/`AddMonths` throw outside them. Day numbers here are unbounded, and only the `yyyy-MM-dd` text form is limited to that range.
- String order: SQLite's `ORDER BY` on text is ordinal, and that is modelled. LINQ's `OrderBy` on names (`CostAnalysisService.cs:113`) uses the current culture's comparer. The model uses the ordinal order there too, because culture collation has no finite description here.
- Numbers: the REAL/double column and the `(decimal)reader.GetDouble` casts are not modelled, and neither is decimal's 28-digit division rounding. Costs are exact reals.
- SQLite mechanics are not modelled: the connection, schema creation, the `id` and `created_at` columns, parameter binding and `Dispose`. The table is a map over its unique key.
- Async, `await` and cancellation tokens are not modelled. A cancelled or failed cost request is the `None` answer of the `respond` parameter. A throwing upsert statement is the `faultAt` index.
- The AWS SDK is not modelled: credentials, region configuration and the transport. The cost-and-usage pages are a sequence given as a parameter, not fetched page by page through `NextPageToken`. They arrive already parsed, with `Date` days and `real` amounts, so the throws of `DateOnly.Parse` and `decimal.Parse` on a malformed response (`CostSyncService.cs:98`, `:103`) are not modelled; such a response counts as a failed request, the `None` answer of `respond`. The dimension-values answers are a parameter that gives each call of a sync its own answer, with `None` when that call throws. The 30-day request window of those calls is not modelled.
- `DateTime.UtcNow`: today's date is a parameter of every operation that reads the clock.
- `IncludeCredits`: the engine's settable property is a parameter, true in the source by default.
- Formatting is not rendered: money `N2`, the `+0.0;-0.0` percentages and month names. A formatted cell holds the number it would show, and a comparison label holds the month numbers.
- `GetDateRanges` (`CostAnalysisService.cs:160-175`) only formats text and is not modelled. Its last-month-to-date label ends at `lastMonthStart.AddDays(today.Day - 1)` without the clamp that the queried window applies. Late in a long month, that label can end in the current month.
- Ordering ties: `OrderByDescending` is stable, so equal totals keep their input order. The descending sort here is stated only as a non-increasing permutation of its input, for `AccountSummaries`, `ServiceComparison` and `AccountComparison` alike. The order among equal totals is left open. Groups of the per-account query that differ only in account name are placed by that name, where SQLite's order among them is unspecified.
- Dictionary iteration order: the grouping dictionaries are unordered maps. Every result built from them is either sorted or a sum, so their order does not show.
- `ToDictionary` throws on a duplicate key. At `CostAnalysisService.cs:52` and `:56` the keys are the days of one month, which are distinct, so the throw cannot happen and is not modelled.
- `GetAccountSummaries` line 191 assigns a service's cost rather than adding to it. When one account id has two account names, the later group replaces the earlier one for that service, and the model computes exactly that (`GroupedServiceCost`). The per-service costs and the per-account total are stated as sums over the selected rows only when the selected rows carry one name per account id (`AccountSummariesSums`). With two names for one id, a service's entry holds only the last name's group sum, and no sum over the rows is claimed.
- CostStore.SummaryOf: its contract states only the account id. The total-equals-service-sum fact is the separate lemma `SummaryTotals`.
- CostAnalysis.DayOfMonthTotals: its contract states only that keys are at least 1. What the keys and values are is proved by `MonthByDayEntries` for dates inside one month.
- Models.TruncateName: lengths and the 37-character cut count Unicode scalar values, because a Dafny string is a sequence of them. `Models.cs:62` counts UTF-16 code units. A name with characters outside the Basic Multilingual Plane (emoji, some CJK) is therefore kept or cut at a different point than in the source. The source's cut can also split a surrogate pair, which this model cannot represent.
- The UI, view models, views, notifications and settings loading are not part of this model.
