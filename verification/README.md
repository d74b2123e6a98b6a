# Olist e-commerce dashboard: aggregation core in Dafny

The dashboard loads one merged table of Olist orders. One row is an
(order, payment, item, review) combination. The user picks a start and an
end date in the sidebar, and the script builds six summary tables for its
charts:

- orders and revenue per calendar month;
- the seven most frequent product categories;
- the distribution of review scores;
- the distribution of payment types;
- the categories of canceled orders;
- a recency / frequency / monetary (RFM) table keyed by review score.

From the monthly table it also derives the "Total Orders" and "Total
Revenue" figures.

This project models that core as pure functions over an immutable table,
and proves what each table means.

- `calendar.dfy` (`Calendar`): timestamps and calendar months.
  - A timestamp is a day ordinal plus the second of the day, and it carries
    its calendar month.
  - Months are numbered consecutively by `MonthIndex`, so "contiguous
    months" is a statement about integers.
- `orders.dfy` (`Orders`): the row type `Order` and the table `seq<Order>`.
  - It defines the columns, `dropna` (`Present`), `payment_value.sum()`
    (`Revenue`), `order_id.nunique()` (`DistinctOrders`) and the latest
    purchase day (`LastDay`).
  - Category, review score and payment type are `Option`s, because pandas
    reads missing values as NaN, and `value_counts` and `groupby` drop NaN
    keys.
- `counting.dfy` (`Counting`): `Series.value_counts()`.
  - It is modelled as a tally followed by an insertion sort: by decreasing
    count for `value_counts()`, or by ascending key for
    `value_counts().sort_index()`. `head(n)` is modelled too.
  - `Tallies(t, xs)` says that `t` is a faithful frequency table of `xs`.
- `grouping.dfy` (`Grouping`): `groupby` by review score and `resample`
  by month.
  - Rows without a key fall in no group.
  - The groups partition the rows that have a key.
- `aggregates.dfy` (`Aggregates`): the six `create_*` helpers, each a
  function of an explicit table.
- `window.dfy` (`Window`): the date filter, in two versions.
  - As written, it compares timestamps with midnight of each date.
  - The corrected version keeps whole days.
- `dashboard.dfy` (`Dashboard`): the pipeline, in two versions.
  - As written, only the monthly trend gets the filtered rows; the other
    five helpers read the whole loaded table.
  - The intended version applies the window to every table.

Three behaviours of the code shape the model:

- The five helpers other than `create_orders_month` ignore their `df`
  argument and read the global `data` (dashboard/dashboard.py lines 17, 21,
  25, 29, 34 and 43). So those tables describe every loaded row, not the
  selected dates.
- `resample('M')` emits every month from the first to the last purchase
  month, including months with no purchase (0 orders, revenue 0).
- The RFM recency is measured against the latest purchase day of the whole
  loaded table, not of the filtered rows.

Payment values are integer cents. A missing payment counts as 0, which is
what `sum` adds when it skips NaN.

## Model

| member | source | states |
|---|---|---|
| Calendar.MonthAtIndex | dashboard/dashboard.py:9 | numbering calendar months for monthly binning loses nothing: a valid (year, month) comes back from its index |
| Orders.Present | dashboard/dashboard.py:17 | the present values of a column occur exactly as often as the non-missing cells, and with the missing cells they make up the whole column |
| Orders.PresentHas | dashboard/dashboard.py:17 | a value survives `dropna` exactly when some cell holds it |
| Orders.DistinctOrdersBounds | dashboard/dashboard.py:10 | `nunique` of the order ids is at most the row count, and at least 1 for a non-empty table |
| Orders.Revenue | dashboard/dashboard.py:11 | the payment total of a table is never negative when no payment is |
| Orders.RevenueAppend | dashboard/dashboard.py:109 | the payment total of two tables put together is the sum of their totals, so it does not depend on how the rows are split |
| Orders.LastDay | dashboard/dashboard.py:43 | the latest purchase day bounds every row's day and is attained by some row |
| Counting.Tally | dashboard/dashboard.py:25 | the tally has one entry per distinct value, each with its number of occurrences; the counts are positive and add up to the length |
| Counting.ByCountDesc | dashboard/dashboard.py:25 | reordering by count gives non-increasing counts, the same entries, the same total, and keeps keys distinct |
| Counting.ByKeyAsc | dashboard/dashboard.py:21 | `sort_index` gives strictly ascending keys, the same entries and the same total |
| Counting.InsertByKeyAscending | dashboard/dashboard.py:21 | inserting a new key into an ascending table keeps it ascending |
| Counting.PermutedTally | dashboard/dashboard.py:21 | any reordering of a frequency table, keys still distinct, is a frequency table of the same values |
| Counting.ValueCounts | dashboard/dashboard.py:25 | `value_counts()` is a frequency table of its input, with non-increasing counts that add up to the input length |
| Counting.ValueCountsByKey | dashboard/dashboard.py:21 | `value_counts().sort_index()` is a frequency table of its input, with strictly ascending keys and counts that add up to the input length |
| Counting.Head | dashboard/dashboard.py:17 | `head(n)` keeps the first `n` entries unchanged and in order, or the whole table when it is shorter |
| Counting.HeadDominate | dashboard/dashboard.py:17 | in a count-ordered table, an entry `head(n)` leaves out comes only after a full head, with a count no larger than the head's last |
| Grouping.Group | dashboard/dashboard.py:34 | a group holds exactly the rows carrying its key, as often as the table does |
| Grouping.GroupMembers | dashboard/dashboard.py:34 | a row is in a group exactly when it is in the table with the group's key |
| Grouping.Keyed | dashboard/dashboard.py:34 | the keyed rows are exactly the rows whose key is present |
| Grouping.GroupRevenuesPartition | dashboard/dashboard.py:37 | when every present key is listed once, the group payment sums add up to the payment total of the keyed rows |
| Aggregates.MonthBin | dashboard/dashboard.py:9-12 | one month's bin counts the distinct order ids purchased in that month, and shows revenue 0 for a month without purchases |
| Aggregates.OrdersByMonth | dashboard/dashboard.py:8-14 | the trend is empty exactly when the table is, and its months are consecutive |
| Aggregates.OrdersByMonthSpan | dashboard/dashboard.py:9 | the bins run from the earliest to the latest purchase month |
| Aggregates.OrdersByMonthCounts | dashboard/dashboard.py:9-12 | each bin counts the distinct order ids purchased in its month and carries the payment total of exactly that month's rows; a month with no purchase shows 0 orders and 0 revenue |
| Aggregates.OrdersByMonthLabels | dashboard/dashboard.py:9 | each bin stands for one calendar month: `MonthAt` of its index is the (year, month) of exactly the purchases binned there, and every purchase lands in some bin |
| Aggregates.OrdersByMonthRevenue | dashboard/dashboard.py:11 | the monthly revenues add up to the payment total of the table |
| Aggregates.OrdersByMonthOrders | dashboard/dashboard.py:103 | the summed monthly order counts are at least the number of distinct orders, and equal to it when no order spans two months |
| Aggregates.TopCategories | dashboard/dashboard.py:16-18 | at most 7 rows, distinct categories, non-increasing positive counts, each the number of rows in that category |
| Aggregates.TopCategoriesDominate | dashboard/dashboard.py:17 | a category left out appears only when 7 are listed, and in no more rows than the last listed one |
| Aggregates.TopCategoriesListed | dashboard/dashboard.py:17 | every listed category occurs in the table |
| Aggregates.Ratings | dashboard/dashboard.py:20-22 | one row per review score present, with strictly ascending scores |
| Aggregates.RatingsCounts | dashboard/dashboard.py:21 | each rating row counts the rows with its score, and the counts add up to the rows whose score is present |
| Aggregates.RatingsTotal | dashboard/dashboard.py:21 | the rating counts add up to the number of scored rows |
| Aggregates.PaymentTypes | dashboard/dashboard.py:24-26 | one row per payment type present, with distinct keys and non-increasing positive counts of the rows of that type, adding up to the rows whose type is present |
| Aggregates.CanceledRows | dashboard/dashboard.py:29 | keeps exactly the rows whose status is "canceled" |
| Aggregates.CanceledCategories | dashboard/dashboard.py:28-31 | one row per category among canceled rows, with non-increasing positive counts of canceled rows in that category, adding up to the canceled rows with a category; empty when nothing is canceled |
| Aggregates.RfmFor | dashboard/dashboard.py:33-47 | a score's RFM row carries that score and a non-negative recency |
| Aggregates.RfmForMeaning | dashboard/dashboard.py:36-44 | frequency is the number of distinct orders with the score; monetary is the payment total of the rows with the score; the group's latest purchase day is `recency` days before the table's latest |
| Aggregates.Rfm | dashboard/dashboard.py:34 | RFM rows come in strictly ascending score order |
| Aggregates.RfmScores | dashboard/dashboard.py:34 | a score has an RFM row exactly when some row carries it |
| Aggregates.RfmRowMeaning | dashboard/dashboard.py:35-44 | per RFM row: distinct-order frequency, monetary value equal to the payment total of its score group, and recency exactly the gap in days from the group's latest purchase day to the table's latest (no row of the group is later, one row attains it), so at least 0 and 0 exactly when the group holds a purchase on the latest day |
| Aggregates.RfmMonetaryTotal | dashboard/dashboard.py:37 | the monetary column adds up to the payments of all rows with a review score |
| Window.FilterByDate | dashboard/dashboard.py:86 | keeps exactly the rows between the start date at 00:00 and the end date at 00:00, as often as the table has them |
| Window.InWindow | dashboard/dashboard.py:86 | a timestamp that passes both comparisons falls on a day from the start date to the end date, and on the end date only at 00:00:00 |
| Window.InWindowDays | dashboard/dashboard.py:86 | a valid timestamp passes exactly when its day is from start to end, and on the end day only at 00:00:00 |
| Window.FilterReversed | dashboard/dashboard.py:86 | a start date after the end date selects nothing |
| Window.FilterCompose | dashboard/dashboard.py:86 | filtering twice is filtering by the intersection of the windows |
| Window.EndDayAfterMidnightDropped | dashboard/dashboard.py:86 | a purchase on the end date after midnight is dropped, though it lies in the whole-day window |
| Window.FilterByDay | dashboard/dashboard.py:86 | the whole-day window keeps exactly the rows purchased on the days from start to end |
| Window.FilterAgree | dashboard/dashboard.py:86 | both windows agree when no purchase falls on the end date after midnight |
| Dashboard.Build | dashboard/dashboard.py:103-109 | "Total Revenue" is the payment total of the trend's rows; "Total Orders" is at least their distinct orders, and equal to it when no order spans two months |
| Dashboard.Render | dashboard/dashboard.py:89-94 | as written: the totals describe the filtered rows and are 0 for a reversed range, while the ratings count every scored row of the whole table |
| Dashboard.RenderIgnoresWindow | dashboard/dashboard.py:89-94 | as written: the category, rating, payment, canceled and RFM tables are the same for every window |
| Dashboard.TotalRevenueNarrowing | dashboard/dashboard.py:109 | narrowing the dates never raises "Total Revenue" when no payment is negative |
| Dashboard.RatingsIgnoreWindow | dashboard/dashboard.py:21 | a scored purchase outside the window makes the ratings chart count more ratings than the filtered rows hold |
| Dashboard.RenderIntended | dashboard/dashboard.py:89-94 | intended pipeline: totals and rating counts describe exactly the purchases on the chosen days, and a reversed range gives an empty trend and zero totals |
| Dashboard.RenderAgrees | dashboard/dashboard.py:89-94 | when every row is on a chosen day and none is on the end day after midnight, both pipelines give the same report |

## Left out

- Loading the CSV and parsing dates (lines 50-57) are file I/O and library parsing. The model starts from typed rows.
  - The sort by purchase timestamp (line 53) does not change any count, so rows may come in any order. It can only change the order among equal counts (which of several tied categories `head(7)` keeps, and how tied payment types and canceled categories are listed); the model leaves that order unspecified (see Counting.ValueCounts).
- Streamlit widgets, the sidebar, the logo and every matplotlib or seaborn chart are presentation.
  - The date pickers' bounds (`date_min`, `date_max`) are therefore not modelled; any pair of day ordinals is a valid input.
- `format_currency` (line 109) is display formatting. The revenue figure is modelled as an integer of cents.
- The rounded mean ratings (lines 106, 179-186) are floating-point averages, so they are left out.
- The pie chart's `explode` list (line 155) is chart styling, so it is left out.
- Calendar.CivilMonth: this is the standard days-to-civil-date conversion. Nothing is proved about it against a calendar; the model relies only on each timestamp carrying the month of its day (`Timestamp.Valid`).
- Counting.ValueCounts: the order among equal counts follows this model's insertion sort. pandas does not promise a tie order, so the contracts claim only the ordering and dominance properties.
- Aggregates.OrdersByMonth: bins are labelled by month number. pandas labels them by the month's last day; `MonthAt` turns the number back into the (year, month), which carries the same information (Aggregates.OrdersByMonthLabels).
- Only well-formed tables are meant: every purchase timestamp names a second within its day and carries the calendar month of its day (`Orders.WellFormed`). The monthly bins read that month, while the date filter reads the day, so on a row whose month does not match its day the two would disagree; pandas derives both from one timestamp, so such a row cannot arise in the source.
- Payment values are floats in the source and integers (cents) here, so the model has no rounding. A missing payment counts as 0, and timestamps have one-second resolution.
- Order ids and purchase timestamps are assumed present. The source has no special handling for missing ids or NaT timestamps.
- Dashboard.TotalRevenueNarrowing: only revenue is shown to be monotone under narrowing. The same property for "Total Orders" is not proved.

## Findings

| source | as written | input that shows it | evidently intended | confidence | as-written member | corrected member |
|---|---|---|---|---|---|---|
| dashboard/dashboard.py:21 | the five helpers other than `create_orders_month` read the global `data` instead of their `df` argument, so the category, rating, payment, canceled and RFM charts ignore the chosen dates | a table with one scored purchase before the start date: the ratings chart still counts it | every chart describes the purchases in the chosen range, which is what the helpers' `df` parameter and the "Pick the Date" sidebar suggest | high (not executed) | Dashboard.RatingsIgnoreWindow | Dashboard.RenderIntended |
| dashboard/dashboard.py:86 | `<= str(end_date)` compares each timestamp with the end date at 00:00:00, so purchases made later on the end date are dropped, including in the default view that ends on the last purchase date | a purchase at 10:00 on the end date | every purchase made on a day from the start date to the end date | high (not executed) | Window.EndDayAfterMidnightDropped | Window.FilterByDay |
