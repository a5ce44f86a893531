# Expense-Tracker core in Dafny

A model of the date-driven business logic of the Expense-Tracker web application
(`app.py`), separated from Flask and SQLite, with proofs of what that logic promises.
It covers four parts:

- **Auto-categorisation** (`CATEGORY_MAP`, `auto_category`). The category of a title
  is that of the first keyword, in the map's insertion order, occurring in the
  lower-cased title. With no match it is "Other".
- **Adding an expense** (`api_add_expense`). The title is stripped, the missing fields
  get their defaults, and the category is inferred when none is given. The request is
  refused when the title is empty or the amount is zero.
- **The recurrence catch-up run** (`api_run_recurring`). Every active template
  materialises one transaction per due date up to "today", then its next date is
  written back. Weekly steps add 7 days. Monthly steps move to the next month on day
  `min(day, 28)`.
- **The monthly summary** (`api_summary`). It computes the month's date window (found
  with the "day 28 + 4 days − day" trick), per-kind totals, the per-category expense
  breakdown and a six-point expense trend.

Modules, one per file:

- `Wrappers`: `Option` and `Result`.
- `Calendar`: Python's `date`, its ordinal, and `date + timedelta` with the range
  check for years 1 to 9999.
- `Classify`: auto-categorisation.
- `Ledger`: the stored records.
- `Entry`: adding an expense.
- `Recurrence`: the catch-up run.
- `Grouping`: SQL's `GROUP BY ... SUM` over rows.
- `Analytics`: the summary.

How the model represents the code:

- Dates are (year, month, day) triples ordered lexicographically. This is how Python
  compares `date`s, and how the SQL compares the zero-padded ISO strings.
- Amounts are exact `real`s.
- "Today" is a parameter.
- Kinds are modelled as `Expense`, `Income` or a custom label, and stored
  transactions are assumed to carry canonical kinds (`Ledger.Canonical`): a custom
  label is never "expense" or "income". `ParseKind` only produces such kinds, and
  `Ledger.KindTextInjective` shows that grouping them by kind is grouping by the
  `kind` column's text, as the SQL does.
- A request that raises commits nothing, so failures are modelled as `Result.Err` or
  `None`:
  - `date(y, m, d)` of a day that does not exist;
  - a `timedelta` step past 9999-12-31 or before 0001-01-01;
  - a stored next date that does not parse.

Behaviour of the code that the model keeps as written:

- Only a zero amount is refused, so a negative amount is accepted (app.py:129).
- The category breakdown can show "Other" more than once, because a NULL, an empty and
  an explicit "Other" category are grouped separately (app.py:234-236).
- The trend's points are the months of the days 150, 120, …, 0 days before the first
  of the month (app.py:239-241). These are not always six distinct calendar months.
  See "## Findings".

## Model

| member | source | states |
|---|---|---|
| Calendar.Shift | app.py:191 | `d + timedelta(days = n)`: defined exactly when the resulting ordinal lies in 1..3652059; the result is a valid date `n` days on, later for positive `n` and earlier for negative |
| Calendar.MakeDate | app.py:198 | `date(y, m, d)` succeeds exactly for a real day of a month in years 1..9999 |
| Calendar.AddDays | app.py:226-227 | stepping `n` days a month at a time lands on the date whose ordinal is `n` more, and moves in the direction of `n` |
| Calendar.OrdinalOrder | app.py:184 | the date comparison used by the loop agrees with the day ordinal, and equal ordinals mean the same date |
| Calendar.InRangeByOrdinal | app.py:191 | a date lies in years 1..9999 exactly when its ordinal lies in 1..3652059, the range `timedelta` arithmetic accepts |
| Classify.FirstMatch | app.py:82-85 | scanning from index `i`: the category of the first matching keyword at or after `i`, or "Other" when none matches |
| Classify.AutoCategory | app.py:80-85 | the category of the first keyword, in insertion order, contained in the lower-cased title; "Other" when no keyword is contained |
| Classify.AutoCategoryNonEmpty | app.py:73-85 | the category given to a title is never empty |
| Classify.AutoCategoryIgnoresCase | app.py:81 | titles differing only in letter case get the same category, and lower-casing first changes nothing |
| Classify.LowerIdempotent | app.py:81 | lower-casing twice is lower-casing once |
| Classify.PizzaIsFood | app.py:73-84 | "Pizza night" is Food |
| Classify.GibberishIsOther | app.py:73-85 | "random gibberish" contains no keyword and is Other |
| Classify.Lower | app.py:81 | `lower()` keeps the length and lower-cases each letter |
| Ledger.ParseKind | app.py:125 | the stored kind text reads as expense or income exactly for those two words, any other text kept as given; the result is canonical and its text is the stored text |
| Ledger.ParseKindText | app.py:125 | reading back the stored text of a canonical kind gives that kind |
| Ledger.KindTextInjective | app.py:230-233 | canonical kinds with the same text are equal, so grouping by kind is grouping by the `kind` column |
| Ledger.ParseCadence | app.py:190-192 | only the text "weekly" is a weekly cadence; every other text steps monthly |
| Ledger.TemplateOfRow | app.py:181-190 | a `recurring` row read as a template: every column kept, the kind read by `ParseKind`, weekly exactly for the text "weekly" |
| Entry.Strip | app.py:123 | `strip()` returns the middle of the text, removing only whitespace from both ends, and leaves no whitespace at either end |
| Entry.StripEmpty | app.py:129 | a title is refused as empty exactly when it is all whitespace |
| Entry.ChosenCategory | app.py:126 | the supplied category unless missing or empty, otherwise the auto-category of the stripped title; never empty |
| Entry.NewTransaction | app.py:123-130 | refused exactly when the stripped title is empty or the amount is zero; otherwise the transaction has the stripped title, the amount, the kind read from the given text (default "expense") and storing that text, a non-empty category, the given date or today, the given notes or "" |
| Recurrence.Advance | app.py:189-198 | weekly adds exactly 7 days; monthly goes to the next month (December to January of the next year) on day `min(day, 28)`; the result is valid and strictly later, and only a step past 9999-12-31 fails |
| Recurrence.CatchUp | app.py:183-198 | the due dates start at the stored date and are consecutive cadence steps; the last is not after today; the next date is one step past the last due date and after today; none are due exactly when the stored date is already after today, and then the date is unchanged |
| Recurrence.StepsIncrease | app.py:184-198 | along the catch-up loop the dates strictly increase and stay before the written-back date |
| Recurrence.CatchUpOrdered | app.py:184-198 | the dates created for one template strictly increase and each lies between the stored next date and today |
| Recurrence.CatchUpSucceedsBeforeLastYear | app.py:190-198 | with today before year 9999 the loop never overflows for a template with a valid date |
| Recurrence.Materialize | app.py:186-187 | one transaction per due date, in order, copying kind, title, amount and category, dated that day, noted "recurring" |
| Recurrence.ProcessTemplate | app.py:183-200 | one template's pass fails exactly when its date does not parse or a step overflows (with the matching error); otherwise it makes one transaction per due date and writes back the catch-up's next date, which is after today, changing nothing else |
| Recurrence.Run | app.py:178-202 | fails, writing nothing, exactly when some active template fails; inactive templates are untouched; active ones change only their next date, which moves after today (unchanged when already after today); every created transaction is a copy of an active template dated between its old next date and today |
| Recurrence.RunWritesBack | app.py:183-199 | after a successful run an inactive template is unchanged and an active one has exactly the catch-up's next date written back, one step past its last due date |
| Recurrence.RunCreatesDue | app.py:180-188 | a successful run creates exactly each active template's transactions, one per due date in date order, template after template |
| Recurrence.RunCreatesEveryDueDate | app.py:182-188 | every due date of every active template yields its transaction in the run's output |
| Recurrence.RunIdempotent | app.py:182-200 | a second run with the same today creates nothing and changes no template |
| Recurrence.CreatedDates | app.py:188 | `created_dates` lists the created transactions' dates in creation order |
| Recurrence.RunCreatedDates | app.py:184-188 | `created_dates` is every active template's due dates, template after template: one date per step of the catch-up loops |
| Recurrence.MonthlyCatchUpExample | app.py:183-198 | monthly from 2024-01-15 with today 2024-04-01: due 01-15, 02-15, 03-15, next 2024-04-15 |
| Recurrence.MonthlyClampExample | app.py:193-198 | the 31st steps to the 28th of the next month, also from December to January |
| Recurrence.WeeklyExample | app.py:190-191 | 2024-02-26 plus a week is 2024-03-04 |
| Grouping.AddTo | app.py:230-233 | adding a row adds its amount to its key's group (or a new group), keeps keys distinct, changes no other key's amount |
| Grouping.GroupSums | app.py:230 | `GROUP BY` with `SUM`: distinct keys, exactly the rows' keys, each holding the sum of its rows' amounts, total preserved |
| Grouping.AmountOfDistinct | app.py:232-233 | with distinct keys a group's amount is everything held for its key |
| Analytics.Window | app.py:230 | the rows dated between the window's first and last day |
| Analytics.WindowCounts | app.py:230 | each row in the window appears as often as in the ledger, so repeated identical rows all count |
| Analytics.WindowAppend | app.py:230 | the window keeps the rows' order: the window of two stretches of rows is the first's window followed by the second's |
| Analytics.MonthEnd | app.py:224-227 | the computed end is the month's true last day (28 or 29 for February by leap year, 30 or 31 otherwise); it fails only for December 9999 |
| Analytics.WindowIsMonth | app.py:224-230 | a date lies in the month's window exactly when it is a day of that month |
| Analytics.WindowIsMonthRows | app.py:224-230 | the window's rows are exactly the rows dated in that calendar month |
| Analytics.MonthRowsCounts | app.py:224-230 | each row of a calendar month appears among the month's rows as often as in the ledger |
| Analytics.MonthRowsAppend | app.py:224-230 | the month's rows keep their order: the rows of two stretches are the first's followed by the second's |
| Analytics.ApplyTotals | app.py:231-233 | each group's sum overwrites its kind's entry and other entries keep their defaults |
| Analytics.Totals | app.py:230-233 | expense and income are always present; the keys are those two plus every kind in the window; each holds its kind's sum over the window (0.0 when absent) |
| Analytics.Label | app.py:236 | a NULL or empty category reads "Other", any other name reads as itself |
| Analytics.Entries | app.py:236 | one labelled entry per group, and the entries' amounts add up to the groups' total |
| Analytics.Breakdown | app.py:234-236 | one entry per distinct expense category in the window, and the entries add up to the window's expense total |
| Analytics.BreakdownSound | app.py:234-236 | every entry is a category of the window's expenses, labelled, with that category's expense sum |
| Analytics.BreakdownComplete | app.py:234-236 | every category of the window's expenses has its entry with its expense sum |
| Analytics.MonthWindowTotal | app.py:241-245 | summing the expenses over a month's window gives the expenses dated in that calendar month |
| Analytics.TrendPoint | app.py:240-246 | a point is the year and month of the day `n` days back, with that month's expenses; it fails when the step leaves the calendar or lands in December 9999 |
| Analytics.TrendFrom | app.py:239-246 | points for i = k down to 0, each for the day `30 * i` back; fails exactly when the furthest step leaves the calendar or the month is December 9999 |
| Analytics.Trend | app.py:238-246 | six points, the last the requested month, each with its own month's expenses, months never going backwards; fails exactly in January-May of year 1 and December 9999 |
| Analytics.TrendMonthsOrdered | app.py:239-241 | the trend's months never go backwards |
| Analytics.TrendSkipsFebruary2023 | app.py:239-241 | for a request starting 2023-03-01 the six points fall in Oct, Nov, Dec, Dec 2022, Jan and Mar 2023: December twice and February never |
| Analytics.CalendarTrend | app.py:238-246 | the corrected trend: defined exactly when the month five back exists (not January-May of year 1); six points, the last the requested month, each the month right after the one before it |
| Analytics.CalendarTrendAmounts | app.py:238-246 | point `j` of the corrected trend is the month `5 - j` months back, carrying that month's expenses |
| Analytics.CalendarTrendMarch2023 | app.py:238-246 | the corrected trend for March 2023 runs October 2022 to March 2023 |
| Analytics.TrendWithinCalendarMonths | app.py:238-246 | for every month the summary accepts, both trends exist and every point of the code's trend is a point of the corrected trend: the code only skips or repeats months, never leaves the last six |
| Analytics.EarlyMonths | app.py:240 | the trend's step back 150 days fails exactly for January to May of year 1 |
| Analytics.MonthExpensesOfRows | app.py:241-245 | a month's expenses equal the expense total of that month's rows |
| Analytics.Summarize | app.py:219-249 | fails exactly for a month that does not exist, December 9999, or January-May of year 1; otherwise the totals by kind of the month's rows, the category breakdown of exactly those rows, and the trend as above, with the budget defaulting to 0.0 |
| Analytics.TrendAgreesWithMonthSummaries | app.py:238-246 | for every month the summary accepts, each trend point's amount equals the expense total that a summary of the point's own month reports, whenever that month can be summarised |
| Analytics.LeapFebruarySummary | app.py:224-233 | the February 2024 summary counts an expense on the 29th and not one on 1 March |

## Left out

- Flask routing, request parsing and JSON responses. The request body is a `Payload`
  whose amount is already a number and whose date is already a date. The conversions
  `float(...)` and `int(...)` are not modelled.
- Entry.NewTransaction: the model takes a supplied date as a date. `api_add_expense`
  parses nothing: it stores whatever date text is given (app.py:127). Text that is
  not a zero-padded ISO date, such as "yesterday" or "2024-2-5", is stored as is. The
  summary's string comparisons then place it in the wrong month or in none, and the
  model does not represent this.
- Entry.NewTransaction: a `title`, `kind` or `notes` key present with JSON `null` is
  treated as absent. In the code, a null title makes `strip()` raise. A null kind makes
  the INSERT fail on the `NOT NULL` kind column (app.py:28, 132), so the request fails
  and nothing is stored, while the model records the default kind. A null note is
  stored as NULL, where the model stores "".
- SQLite: every query becomes a filter and sum over a sequence of transactions. Stored
  dates are triples, so a date string that is not zero-padded ISO is not modelled. The
  row order of `GROUP BY` results is not modelled, so nothing is claimed about the
  order of the category breakdown.
- `SUM(amount)` is never NULL, because every row has an amount, so `r['sum'] or 0.0`
  reduces to the sum. The trend's `or 0` integer default is the real 0.0.
- Clock reads:
  - `date.today()` becomes the reference date. The code re-reads the clock on every
    loop iteration, while the model reads it once per run.
  - `datetime.now()` for `created_at` is not modelled.
- Store-assigned ids, receipts and `created_at` are not modelled.
- The monthly budget read from the settings table and its `float()` parsing become an
  optional input defaulting to 0.0.
- The month label `f"{year}-{month:02d}"` is kept as the (year, month) pair, not
  formatted.
- The template-creation, update, delete, listing, export, import, backup and settings
  endpoints are not modelled. They are store plumbing around the logic above. `app.js`
  is user interface.
- Classify.Lower: lower-cases ASCII letters only. Python's `str.lower()` also folds
  non-ASCII letters, and some of them fold to ASCII: U+212A KELVIN SIGN becomes 'k',
  so "FLIPKART" spelt with it is Shopping in the code and "Other" in the model.
- Amounts are exact reals, not IEEE floats.
- The ordering of the run's output across templates follows the order the templates
  are given, standing in for the order of the query's rows.

## Findings

| source | as written | input that shows it | evidently intended | confidence | as-written member | corrected member |
|---|---|---|---|---|---|---|
| app.py:239-241 | each trend point is the month of the day `30 * i` days before the first of the requested month, for i = 5 … 0 | requested month March 2023: the points fall in Oct 2022, Nov 2022, Dec 2022, Dec 2022, Jan 2023, Mar 2023, so February 2023 is missing and December is counted twice | the six consecutive calendar months ending with the requested one | not executed | Analytics.TrendSkipsFebruary2023 | Analytics.CalendarTrend |

`Analytics.Trend` models the code's trend, and `Analytics.TrendSkipsFebruary2023`
exhibits the skipped month. `Analytics.CalendarTrend` is the corrected trend. It is
proved to give consecutive months, each with its own expenses.
`Analytics.TrendWithinCalendarMonths` proves that every point of the code's trend is a
point of the corrected one. `Analytics.Summarize` keeps the code's trend because it
models the endpoint as it behaves. A corrected endpoint replaces its `trend` field with
`CalendarTrend(y, m, txs)`, which is defined for every month the summary accepts.
