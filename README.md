# Sales targets of the ERP application, modelled in Dafny

This project models the sales-target module of a small ERP web application
(`src/lib/actions/sales-targets.ts`). A sales target is a sum one sales user
should reach in one month, quarter or year. The module does three things:

- It keys every target by a period string: `"YYYY-MM"`, `"YYYY-Qn"` or `"YYYY"`.
  `generateTargetPeriod` builds the key from a date, and `calculateAchievedAmount`
  reads the inclusive date range back out of the key.
- It computes a target's achieved amount. This is the total of the user's
  PAID invoices dated inside that range. A chart row shows the amount next to
  a percentage, which is 0 when the target is 0 or less.
- It keeps the `salesTargets` table. The actions create, read, update, delete,
  toggle and overwrite records. The table holds at most one record per (user, period).

Layout, one module per file:

- `outcomes.dfy`: `Option`, and the `Result` type for the `{ success, data | error }` objects.
- `text.dfy`: the string building blocks: `String(n)`, `padStart`, `split`, `replace`,
  `Number()` and `parseInt` on digit strings, and the lexicographic order of keys.
- `calendar.dfy`: Gregorian dates, leap years, month lengths, and `new Date(y, monthIndex, day)`.
  It covers month index 12 and day 0, the two roll-overs the module relies on, and the reading of years 0..99 as 1900..1999.
- `periods.dfy`: the target types, `generateTargetPeriod`, the parsing of a key into a range,
  and the round-trip lemmas between the two.
- `achievement.dfy`: invoices, the paid-invoice total behind `calculateAchievedAmount`, and the chart percentage.
- `sales_targets.dfy`: the record type and the table as a class whose methods are the server actions.
  It also holds the chart query and its rows.
- `scenarios.dfy`: short sequences of action calls on a fresh table, whose outcomes follow from the contracts.

Inputs that the source takes from its environment are parameters here:

- "now" is `today: Date`.
- The invoice table is `invoices: seq<Invoice>`.
- The set of existing user ids is a field of the table.

Record ids are handed out by a counter (`nextId`); the source uses generated string ids.
A new record's `achievedAmount` is 0, which assumes the column's database default.

Some failures come from the database, not from an explicit check in the code.
In the actions that return `{ success, error }`, the source catches each of these
and returns its generic failure message:

- `updateSalesTarget` on an id that does not exist.
- `updateSalesTarget` with a user id that is not a user, which breaks the foreign key.
- `deleteSalesTarget` on an id that does not exist.
- A create or update with a type outside the `TargetType` enumeration.

The model states each of them as that failure. `getTargetsForChart` is different: on
success it returns the bare array of rows, and on a failure (such as a type outside
the enumeration) it throws `Error("Failed to fetch chart data")`. The model returns
the rows as `Success(rows)` and the thrown error as `Failure(ChartFailed)`. The
chart's `targetType` parameter is an `Option`; leaving it out (None) asks for
MONTHLY targets, the source's default. `new Date(y, …)` reads a year y in 0..99 as
1900 + y; `Calendar.MakeDate` does the same.

## Model

| member | source | states |
|---|---|---|
| Text.IntToString | src/lib/actions/sales-targets.ts:302 | `${year}`: a definition without a contract of its own; a `-` before the digits of -n for a negative n, and NatToString for the rest |
| Text.NatToString | src/lib/actions/sales-targets.ts:302 | `${n}` is a non-empty string of decimal digits, one digit long exactly when n < 10, with no leading zero unless n is 0 |
| Text.DigitsValueOfNatToString | src/lib/actions/sales-targets.ts:399 | reading the decimal form of n back as digits gives n |
| Text.DigitsValueLeadingZero | src/lib/actions/sales-targets.ts:399 | a leading `0` (from `padStart`) does not change the value a key piece reads as |
| Text.PadStart | src/lib/actions/sales-targets.ts:302 | `padStart(width, fill)` keeps s as the suffix and fills up to `width` with the fill character |
| Text.Split | src/lib/actions/sales-targets.ts:399 | `split(sep)` gives at least one piece, no piece holds the separator, and joining the pieces gives the string back |
| Text.SplitWithoutSeparator | src/lib/actions/sales-targets.ts:399-404 | a string without the separator splits into itself alone |
| Text.SplitAtFirstSeparator | src/lib/actions/sales-targets.ts:404 | `a + sep + b` splits into `a` followed by the pieces of `b` when `a` has no separator |
| Text.SplitAfterDigits | src/lib/actions/sales-targets.ts:399 | digits, a separator that is not a digit and a rest without it split into exactly the digits and the rest |
| Text.SplitOfJoin | src/lib/actions/sales-targets.ts:399 | splitting undoes joining pieces that hold no separator |
| Text.FirstIndex | src/lib/actions/sales-targets.ts:405 | the first `Q` that `replace("Q", "")` removes is at the returned position, with none before it |
| Text.RemoveFirst | src/lib/actions/sales-targets.ts:405 | `replace("Q", "")`: a definition without a contract of its own; drops the character at FirstIndex, and leaves a string with no `Q` unchanged |
| Text.RemoveFirstAtHead | src/lib/actions/sales-targets.ts:405 | `replace("Q", "")` on `Q` followed by the quarter digits leaves the digits |
| Text.LeadingDigits | src/lib/actions/sales-targets.ts:405 | the digits `parseInt` reads form the longest digit prefix; the next character is not a digit |
| Text.LeadingDigitsOfDigitsThen | src/lib/actions/sales-targets.ts:411 | the leading digits of digits followed by a non-digit are exactly those digits |
| Text.JsNumber | src/lib/actions/sales-targets.ts:399 | `Number(piece)` gives a number exactly for a non-empty digit string |
| Text.JsParseInt | src/lib/actions/sales-targets.ts:405-411 | `parseInt` gives a number exactly when the string starts with a digit |
| Text.JsParseIntOfDigitsThen | src/lib/actions/sales-targets.ts:405-411 | `parseInt` of digits followed by a non-digit (or nothing) is the value of those digits |
| Text.LexLeTotal | src/lib/actions/sales-targets.ts:352-354 | any two keys are ordered one way or the other by `orderBy: targetPeriod asc` |
| Text.LexLeTransitive | src/lib/actions/sales-targets.ts:352-354 | the key order is transitive |
| Text.LexLeAntisymmetric | src/lib/actions/sales-targets.ts:352-354 | two keys each ordered before the other are equal |
| Calendar.DaysInMonth | src/lib/actions/sales-targets.ts:401 | a month has 28 to 31 days, and February has 29 exactly in a leap year |
| Calendar.NextDay | src/lib/actions/sales-targets.ts:401 | the next day is a valid date after d with no valid date strictly between them |
| Calendar.FullYear | src/lib/actions/sales-targets.ts:400 | the year `new Date` uses for a year argument, 1900 + y for y in 0..99: a definition without a contract of its own; MakeDate uses it |
| Calendar.MakeDate | src/lib/actions/sales-targets.ts:400-413 | `new Date(y, monthIndex, day)` is a valid date in year `FullYear(y)` (1900 + y for y in 0..99), after the roll-over of month index 12; a positive day is that day of the month; day 0 is the day just before the month's first day |
| Calendar.DayZeroIsLastDay | src/lib/actions/sales-targets.ts:401 | `new Date(year, month, 0)` is the last day of the 1-based month `month` of `FullYear(year)` |
| Calendar.InMonthRange | src/lib/actions/sales-targets.ts:421-424 | a valid date lies in a month's inclusive range exactly when it has that year and month |
| Calendar.InMonthsRange | src/lib/actions/sales-targets.ts:406-424 | a valid date lies in a run of months of one year exactly when it has that year and a month in the run |
| Periods.Quarter | src/lib/actions/sales-targets.ts:304 | `Math.ceil(month / 3)` is the quarter q in 1..4 with 3(q-1) < month <= 3q |
| Periods.MonthDigits | src/lib/actions/sales-targets.ts:302 | `String(month).padStart(2, "0")`: a definition without a contract of its own; MonthDigitsShape states it |
| Periods.MonthlyPeriod | src/lib/actions/sales-targets.ts:302 | the MONTHLY key of a year and month, built from MonthDigits: a definition without a contract of its own; MonthlyPeriodShape states it |
| Periods.FormatPeriod | src/lib/actions/sales-targets.ts:293-311 | `generateTargetPeriod`: a definition without a contract of its own; the shape lemmas state the key of each type and ParseOfFormat its inverse |
| Periods.MonthDigitsShape | src/lib/actions/sales-targets.ts:302 | the padded month is exactly two digits whose value is the month |
| Periods.MonthlyPeriodShape | src/lib/actions/sales-targets.ts:300-302 | a MONTHLY key is the year, `-`, and the month as exactly two digits |
| Periods.QuarterlyPeriodShape | src/lib/actions/sales-targets.ts:303-305 | a QUARTERLY key is the year, `-Q` and one digit q in 1..4 with the month in quarter q |
| Periods.YearlyAndFallbackShape | src/lib/actions/sales-targets.ts:306-310 | a YEARLY key is the year alone; any other type gives the MONTHLY key |
| Periods.ParseRange | src/lib/actions/sales-targets.ts:396-416 | the range read from a key starts on a first day and ends no earlier; an unrecognised type gives no range |
| Periods.MonthlyKeyParts | src/lib/actions/sales-targets.ts:397-399 | for a year of at least 0, `split("-")` of a MONTHLY key gives exactly the year's digits and the two-digit month, and `Number` reads them back as the year and the month |
| Periods.QuarterlyKeyParts | src/lib/actions/sales-targets.ts:402-408 | for a year of at least 0, `split("-")` of a QUARTERLY key gives the year's digits and `Q` with the quarter digit, and `parseInt` (after `replace("Q", "")`) reads them back as the year and the quarter |
| Periods.YearlyKeyValue | src/lib/actions/sales-targets.ts:409-411 | for a year of at least 0, `parseInt` of a YEARLY key is the year |
| Periods.ParseTwoDigitYear | src/lib/actions/sales-targets.ts:409-413 | the YEARLY key of a year y in 0..99 reads back as the range of year 1900 + y, so for those years key and range differ |
| Periods.ParseMonthlyPeriod | src/lib/actions/sales-targets.ts:397-401 | for a year of at least 100, the MONTHLY key of a date reads back as the first to the last day of its month |
| Periods.ParseQuarterlyPeriod | src/lib/actions/sales-targets.ts:402-408 | for a year of at least 100, the QUARTERLY key of a date reads back as day 1 of month 3q-2 to the last day of month 3q |
| Periods.ParseYearlyPeriod | src/lib/actions/sales-targets.ts:409-413 | for a year of at least 100, the YEARLY key of a date reads back as January 1 to December 31 of its year |
| Periods.ParseOfFormat | src/lib/actions/sales-targets.ts:396-416 | for a year of at least 100 and every type, reading a generated key gives that period's range; an unrecognised type gives none |
| Periods.PeriodContainsDate | src/lib/actions/sales-targets.ts:396-416 | for a year of at least 100, the range read from a date's key contains the date |
| Periods.ParsedRangeOfKey | src/lib/actions/sales-targets.ts:396-424 | for a year of at least 100 and a recognised type, the range read from a generated key holds exactly the dates (of years 0 and later) that have that key |
| Periods.MonthlyPeriodExact | src/lib/actions/sales-targets.ts:397-401 | a date lies in the month range of a key exactly when its own MONTHLY key is that key |
| Periods.QuarterlyPeriodExact | src/lib/actions/sales-targets.ts:402-408 | a date lies in the quarter range of a key exactly when its own QUARTERLY key is that key |
| Periods.YearlyPeriodExact | src/lib/actions/sales-targets.ts:409-413 | a date lies in the year range of a key exactly when its own YEARLY key is that key |
| Periods.PeriodRangeExact | src/lib/actions/sales-targets.ts:396-416 | for every recognised type and a key of a year of at least 100, the range of the key holds exactly the dates whose key is that key |
| Periods.FormatExamples | src/lib/actions/sales-targets.ts:300-307 | 2025-01-15 gives `2025-01`, 2025-04-01 gives `2025-Q2` (QUARTERLY), 2025-12-31 gives `2025` (YEARLY) |
| Periods.ParseExampleFebruary | src/lib/actions/sales-targets.ts:397-401 | `2025-02` is February 1 to February 28, 2025 |
| Periods.ParseExampleLeapFebruary | src/lib/actions/sales-targets.ts:397-401 | `2024-02` is February 1 to February 29, 2024 |
| Periods.ParseExampleQuarter | src/lib/actions/sales-targets.ts:402-408 | `2025-Q1` is January 1 to March 31, 2025 |
| Achievement.Counts | src/lib/actions/sales-targets.ts:419-428 | the aggregate's `where`: a definition without a contract of its own; PAID, the order's sales user, and the invoice date inside the range |
| Achievement.PaidTotal | src/lib/actions/sales-targets.ts:419-435 | `_sum.totalAmount` over the invoices that count, 0 when none does: a definition without a contract of its own; the PaidTotal lemmas below state its properties |
| Achievement.AchievedAmount | src/lib/actions/sales-targets.ts:387-440 | the achieved amount is the paid-invoice total over the key's range, and 0 when there is no range (unrecognised type or unreadable key) |
| Achievement.PaidTotalAppend | src/lib/actions/sales-targets.ts:419-435 | the invoice total of two runs of invoices is the sum of their totals |
| Achievement.PaidTotalSwap | src/lib/actions/sales-targets.ts:419-435 | the total does not depend on the order of the invoices |
| Achievement.PaidTotalSkips | src/lib/actions/sales-targets.ts:419-435 | an invoice failing one of the three conditions can be added anywhere without changing the total |
| Achievement.UnpaidNeverCounts | src/lib/actions/sales-targets.ts:425 | an invoice whose status is not PAID (a PENDING one) never contributes |
| Achievement.OtherUserNeverCounts | src/lib/actions/sales-targets.ts:426-428 | an invoice whose order belongs to another sales user never contributes |
| Achievement.PaidTotalNoMatch | src/lib/actions/sales-targets.ts:435 | when no invoice meets the conditions the total is 0 |
| Achievement.PaidTotalNonNegative | src/lib/actions/sales-targets.ts:430-435 | with non-negative invoice totals the achieved amount is non-negative |
| Achievement.CountsByKey | src/lib/actions/sales-targets.ts:419-428 | an invoice counts against the range of a date's key exactly when it is PAID, the user's, and its own date has that key |
| Achievement.PaidTotalIsKeyTotal | src/lib/actions/sales-targets.ts:419-435 | over a range that holds exactly the dates of a key, the paid-invoice total equals the total of the paid invoices whose own date has that key |
| Achievement.AchievedAmountByKey | src/lib/actions/sales-targets.ts:387-435 | for a generated key of a year of at least 100, the achieved amount is the total of the user's paid invoices whose own date has that key |
| Achievement.Percentage | src/lib/actions/sales-targets.ts:371-374 | the chart percentage: a definition without a contract of its own; PercentageMeaning states it |
| Achievement.PercentageMeaning | src/lib/actions/sales-targets.ts:371-374 | the percentage is 0 for a target of 0 or less; otherwise percentage × target = achieved × 100, and it reaches 100 exactly when achieved reaches target |
| SalesTargets.HasPeriod | src/lib/actions/sales-targets.ts:125-130 | the `findFirst` of create: some record has the user and period; a predicate without a contract of its own |
| SalesTargets.HasPeriodElsewhere | src/lib/actions/sales-targets.ts:180-186 | the `findFirst` of update: some record other than `id` has the user and period; a predicate without a contract of its own |
| SalesTargets.IndexOfId | src/lib/actions/sales-targets.ts:233-235 | the lookup by id finds the first record with that id, or reports that none has it |
| SalesTargets.FirstActive | src/lib/actions/sales-targets.ts:75-81 | `findFirst` finds the first active record with the user and period, or reports that there is none |
| SalesTargets.FirstActiveIsTheRecord | src/lib/actions/sales-targets.ts:263-269 | with one record per (user, period), the record found is the only one with that pair |
| SalesTargets.RemoveAt | src/lib/actions/sales-targets.ts:218-220 | deleting position k shifts the later records down by one and keeps the rest in order |
| SalesTargets.RemoveAtMembers | src/lib/actions/sales-targets.ts:218-220 | after deleting, the table holds every earlier record except the one with the deleted id |
| SalesTargets.RemoveAtKeepsInvariant | src/lib/actions/sales-targets.ts:218-220 | deleting a record keeps ids and (user, period) pairs unique |
| SalesTargets.ReplaceKeepsInvariant | src/lib/actions/sales-targets.ts:180-204 | overwriting a record with a pair no other record has keeps the uniqueness invariant |
| SalesTargets.InsertByPeriod | src/lib/actions/sales-targets.ts:352-354 | inserting into a period-sorted list keeps it sorted and adds exactly that record |
| SalesTargets.SortByPeriod | src/lib/actions/sales-targets.ts:352-354 | the chart query's ordering is sorted by period and a permutation of its input |
| SalesTargets.ChartSelects | src/lib/actions/sales-targets.ts:344-351 | the chart query's `where`: the user when a non-empty id is given, the type, and active only; a predicate without a contract of its own |
| SalesTargets.SelectForChart | src/lib/actions/sales-targets.ts:344-351 | the chart query keeps exactly the active records of the type (and of the user when one is given), each as often as in the table |
| SalesTargets.ChartTargets | src/lib/actions/sales-targets.ts:344-355 | the chart targets are sorted by period, all selected by the query, and every selected record appears as often as in the table |
| SalesTargets.ChartRowOf | src/lib/actions/sales-targets.ts:358-375 | one chart entry: the target's id, period and amount, its achieved amount and the percentage; a definition without a contract of its own |
| SalesTargets.ChartRows | src/lib/actions/sales-targets.ts:358-377 | `targets.map(callback)`: one row per target, in the same order, each the callback's row for that target (the chart query passes ChartRowOf) |
| SalesTargets.ChartRowsOrdered | src/lib/actions/sales-targets.ts:352-375 | chart rows come in ascending period order and show 0% when the target is 0 or less |
| SalesTargets.SalesTargetTable.constructor | src/lib/actions/sales-targets.ts:3 | the `salesTargets` table starts empty over the given set of user ids, with the uniqueness invariant |
| SalesTargets.SalesTargetTable.UserSalesTarget | src/lib/actions/sales-targets.ts:70-88 | the result is an active record of the table with that user and period; none is returned only when no such record exists |
| SalesTargets.SalesTargetTable.CurrentMonthTarget | src/lib/actions/sales-targets.ts:91-105 | the active record of the user whose period is today's MONTHLY key, or none when there is no such record |
| SalesTargets.SalesTargetTable.Create | src/lib/actions/sales-targets.ts:108-174 | fails, changing nothing, when the user is unknown, when any record has the (user, period), or when the type is outside the enum; otherwise appends exactly one record with the form's fields and a fresh id; uniqueness is kept |
| SalesTargets.SalesTargetTable.Update | src/lib/actions/sales-targets.ts:177-213 | fails, changing nothing, when another record has the (user, period), or when the id is absent, the user unknown or the type outside the enum; it succeeds exactly when none of these holds, and then rewrites only the form's fields of record id and nothing else |
| SalesTargets.SalesTargetTable.Delete | src/lib/actions/sales-targets.ts:216-228 | fails, changing nothing, when the id is absent; otherwise removes exactly the record with that id |
| SalesTargets.SalesTargetTable.Toggle | src/lib/actions/sales-targets.ts:231-254 | fails with "not found", changing nothing, when the id is absent; otherwise flips only `isActive` of that record |
| SalesTargets.SalesTargetTable.ToggleTwice | src/lib/actions/sales-targets.ts:241-246 | both toggles succeed exactly when the id exists, and toggling the same id twice leaves the table as it was |
| SalesTargets.SalesTargetTable.UpdateAchievedAmount | src/lib/actions/sales-targets.ts:257-290 | fails, changing nothing, when no active record has the user and period; otherwise overwrites only that record's `achievedAmount` |
| SalesTargets.SalesTargetTable.TargetsForChart | src/lib/actions/sales-targets.ts:339-384 | fails (the thrown error) exactly for a given type outside the enum; an omitted type is MONTHLY; otherwise the rows of the sorted, filtered active targets, in that order |
| Scenarios.DuplicateCreateRejected | src/lib/actions/sales-targets.ts:124-138 | a second create for (userA, `2025-06`) fails with the duplicate message and the table keeps one record |
| Scenarios.UpdateCollisionRejected | src/lib/actions/sales-targets.ts:179-193 | editing T1 onto T2's (userB, `2025-06`) fails with the conflict message and T1 keeps its values |
| Scenarios.InactiveTargetNotUpdated | src/lib/actions/sales-targets.ts:263-276 | setting the achieved amount of an inactive target fails and changes nothing |

## Left out

- Database I/O: the Prisma calls are modelled as reads and writes of the in-memory table. Invoices are a parameter.
- Next.js `revalidatePath` cache invalidation and `console.error` logging: they have no effect on the results.
- The `try`/`catch` plumbing: only the failure values it produces are modelled.
  The "Foreign key constraint" message match in `createSalesTarget` is left out: create checks the user beforehand, so in
  this single-threaded model the insert cannot hit the foreign key.
- The text the database gives when it rejects a value outside the `TargetType` enumeration: `InvalidTargetType` stands for it.
- The race between the existence check and the insert when requests run concurrently: the model is single-threaded.
- `Promise.all` in `getTargetsForChart`: the rows are built one after another, which gives the same sequence.
- `getSalesTargets`, `getSalesTargetById` and `getSalesUsers`: plain queries with nothing to state.
- Time of day and time zones: dates are calendar days. In the source the range ends at midnight that begins the last
  day, so an invoice stamped later that day falls outside it. The model counts the whole last day.
- Negative years: a negative year puts a second `-` into the key. The key lemmas require a year of at least 0.
- Periods.ParseOfFormat: the round trips from a key to its range hold for years of at least 100 only. `new Date` reads a
  year from 0 to 99 as 1900 + y, so for those years the range is of another year; ParseTwoDigitYear states that case.
- The limits of JavaScript numbers and dates: `Number` and `parseInt` are exact only up to 2^53, and `new Date` gives an
  Invalid Date after September 13 of year 275760, so the query fails and the caught error gives 0. The model reads
  every digit string exactly and gives a range for every year.
- Periods.ParseRange: a month outside 1..12 or a quarter outside 1..4 gives no range, so the achieved amount is 0. The
  source lets JavaScript's `Date` roll such a month over into a neighbouring one.
- Text.JsNumber: only non-empty digit strings are read. `Number` also accepts surrounding blanks, a sign, exponents
  and hexadecimal, and it reads `""` as 0. Here those give no number, so no range and an achieved amount of 0.
- Text.JsParseInt: leading blanks and a sign are not skipped, and a `0x` or `0X` prefix is read as the digit 0. `parseInt`
  without a radix reads such a prefix as hexadecimal, so `parseInt("0x7E9")` is 2025; here that key gives year 0 or no range.
- Money is an integer and the percentage a real number, instead of JavaScript floating point.
- `createdAt` and `updatedAt`: only `getSalesTargets` uses them, and it is left out.
- The key order is by character code, the order a byte-wise collation gives. For the digits, `-` and `Q` that make up a
  key, this is the order any usual collation gives.
- `src/components/layouts/SideBar.tsx` and `src/components/layouts/Navbar.tsx`: React UI with timers, `localStorage`,
  the DOM and `fetch`. `prisma/seed.ts`: a database seeding script. None of them is part of this model.
