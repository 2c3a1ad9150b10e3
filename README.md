# Sales metrics of the Grupo Cometa dashboard, in Dafny

This project models the computation layer of the Streamlit sales dashboard in
`app.py`. The model covers lines 58-158 of that file: the block that turns the
transaction sheet into the five groups of figures the page displays.

- **Selection** (`Transactions`). The rows are filtered to an inclusive range
  of sale dates and a chosen set of products.
- **Portfolio totals and averages** (`Totals`). These are the number of
  distinct customers, the revenue, revenue per customer and purchases per
  customer.
- **Purchase cadence** (`Cadence`). The rows are sorted by customer and then
  by date. The `DIFF` column holds the gap between consecutive purchases of
  the same customer. The model computes the pooled mean of those gaps in
  days, and the same mean in whole months (`days // 30`).
- **Top-10 ranking** (`Ranking`). For each customer the model sums revenue
  and counts purchases, sorts descending by revenue, and keeps the first ten.
  It then attaches each customer's name through the code-to-name map and
  re-sorts ascending.
- **Lifecycle segmentation** (`Lifecycle`). The anchor is the latest sale of
  the selection. Each customer has a first and a last purchase. The status
  column is built in three steps:
  - it is filled with "Recorrente";
  - then overwritten with "Novo" when the first purchase is after
    anchor − 365 days;
  - then overwritten with "Perdido" when the last purchase is before
    anchor − 790 days.

  The result is the count of customers per status.
- **Yearly retention** (`Retention`). For each sale year, the rate is the
  share of that year's distinct customers who appear on more than one row in
  that year, times 100. A year without such customers gets 0 (`fillna(0)`).

`Sequences` holds the table operations these groups share:
- row masks (`Filter`);
- sorting by a key (`SortBy`);
- `drop_duplicates` (`DropDuplicates`);
- the ascending distinct keys of a group-by (`SortedDistinct`).

`Scenarios` works three of the metrics out on concrete rows.

Encoding:
- A sale date is an integer day number.
- An amount is an integer number of cents.
- The averages and the retention rate are `real`.
- The calendar year of a date is a parameter `yearOf: int -> int`.
- A value the source cannot produce is `Option.None`: revenue per customer
  on an empty selection (NaN), purchases per customer on an empty selection
  (ZeroDivisionError), and the mean gap when nobody bought twice (NaT).

The status column is the one place where the source updates values step by
step. `Lifecycle.Classify` is therefore a method that fills an array and
overwrites it in two loops. The other metrics are whole-table expressions and
are modelled as functions over `seq<Transaction>`.

Three points of the code that the model follows exactly:
- **Order of the status checks.** The code writes "Perdido" last, so that
  status wins wherever both thresholds would apply. `Lifecycle.StatusOf`
  proves that no customer meets both: 365 < 790, and a customer's first
  purchase is never after their last. So "Novo" is exactly a recent first
  purchase and "Perdido" exactly an old last purchase.
- **Which name a customer gets.** `drop_duplicates` keeps the first
  occurrence of each distinct (code, name) pair. `to_dict` then keeps the
  last of those pairs for each code. A customer named "A", then "B", then
  "A" again is therefore shown as "B" (`Scenarios.NameScenario`).
- **Shape of the retention result.** `retencao_df` holds only the year and
  the rate, and so does `Retention.RetentionPoint`. The per-year customer
  and returning counts are the sizes of `Retention.CustomersIn` and
  `Retention.ReturningIn`.

## Model

| member | source | states |
|---|---|---|
| Sequences.Filter | app.py:60-61 | a boolean mask keeps exactly the rows satisfying it, each with its multiplicity, in their original order |
| Sequences.SortBy | app.py:81 | sorting returns a permutation of the rows in key order |
| Sequences.SortBySorted | app.py:81 | rows already in key order are returned unchanged |
| Sequences.DropDuplicates | app.py:95 | the result is a subsequence of the input holding every value of the input exactly once, in the order of first occurrence |
| Sequences.SortedDistinct | app.py:98-101 | group keys are the distinct values of the column, strictly ascending |
| Sequences.StrictlyIncreasingCard | app.py:65 | a strictly ascending key list has as many entries as distinct values |
| Transactions.Select | app.py:59-61 | the selection is a subsequence of the sheet holding exactly the rows with start ≤ date ≤ end and a chosen product, each as often as in the sheet |
| Transactions.Revenue | app.py:68 | the revenue of no rows is 0 and of one row is its amount |
| Transactions.RevenueBounds | app.py:68 | without refunds the revenue is non-negative and at least any single amount |
| Transactions.Customers | app.py:98-101 | the group keys are each selected customer once, ascending, as many as `nunique` counts |
| Transactions.RowsOf | app.py:128-131 | a customer's rows are exactly the rows with that code, and they are non-empty exactly for customers of the selection |
| Transactions.CustomerSetPermutation | app.py:81 | reordering the rows does not change the set of customers |
| Totals.NumCustomers | app.py:65-71 | the number of distinct customers is at most the number of purchases, and 0 exactly for an empty selection |
| Totals.PerCount | app.py:74-78 | the quotient of a total by a count is missing exactly when the count is 0, and otherwise times the count gives the total |
| Totals.RevenuePerCustomer | app.py:68-75 | revenue per customer times the number of customers is the total revenue; NaN (None) exactly for an empty selection |
| Totals.PurchasesPerCustomer | app.py:71-78 | purchases per customer times the number of customers is the number of purchases, and at least 1; None exactly for an empty selection, where the integer division raises ZeroDivisionError |
| Cadence.SortedByCustomerDay | app.py:81 | `data_sorted` is a permutation of the selection ordered by customer, then by date |
| Cadence.GapAt | app.py:84 | a gap exists only on a row following a row of the same customer, and is the difference of their dates |
| Cadence.DiffColumn | app.py:84 | the `DIFF` column has one entry per row |
| Cadence.DiffMeaning | app.py:81-84 | on rows grouped by customer, an entry is missing exactly on the customer's first row; otherwise it is the date difference to the previous row of the same customer |
| Cadence.Present | app.py:87 | the mean reads exactly the non-missing entries of the column, and no more entries than the column has |
| Cadence.PresentKeepsAll | app.py:87 | every non-missing entry of the column is read as often as it occurs there |
| Cadence.GapsNonNegative | app.py:84 | after the sort no gap is negative |
| Cadence.GapCount | app.py:84-87 | there are exactly (purchases − customers) gaps, one per consecutive pair of the same customer |
| Cadence.GapNeedsTwoPurchases | app.py:84 | a gap is recorded only for a customer with at least two purchases, so one purchase contributes no gap |
| Cadence.TotalGap | app.py:84-87 | the summed gap is non-negative, and 0 when no customer bought twice |
| Cadence.MeanGapDays | app.py:87-90 | the mean gap in whole days is the floor of the sum of gaps over their number, is non-negative, and is NaT (None) exactly when no customer bought twice |
| Cadence.MeanGapMonths | app.py:91 | the month figure is `days // 30`, present exactly when the day figure is |
| Ranking.GroupTotals | app.py:98-101 | one aggregate per selected customer, each the sum of that customer's amounts and the count of their rows |
| Ranking.GroupTotalsPartition | app.py:98-101 | the per-customer sums add up to the total revenue and the counts to the number of purchases |
| Ranking.TotalOf | app.py:98-101 | a customer's aggregate carries that code and at most as many purchases as there are rows, and it has purchases exactly when the customer is in the selection |
| Ranking.TotalsOf | app.py:98-101 | one aggregate per requested customer, in the requested order |
| Ranking.GroupSums | app.py:98-101 | the aggregates of a list of customers add up to the revenue and the row count of those customers |
| Ranking.NameMap | app.py:95 | the map has a key for every code of the pairs; each value is paired with its code in the input, and it is the name of the last pair with that code |
| Ranking.ClientMapping | app.py:95 | every selected customer, and no one else, maps to a name found on one of that customer's own rows |
| Ranking.NameRule | app.py:95 | the name mapped to a customer is one of their (code, name) pairs, and it first occurs no earlier than any other pair of theirs |
| Ranking.RevenueRanking | app.py:104 | the ranking is a permutation of the aggregates in descending revenue order |
| Ranking.Head | app.py:107 | `head(10)` keeps min(10, customers) entries |
| Ranking.HeadEntries | app.py:107 | the kept entries are distinct customers' true aggregates |
| Ranking.HeadDominates | app.py:104-107 | a customer left out of the first ten has no more revenue than any customer kept |
| Ranking.TopCustomers | app.py:113 | the chart has min(10, customers) entries in ascending revenue order |
| Ranking.AttachNames | app.py:110 | mapping names keeps every entry's customer, sum and count and gives it the name the map holds for its code |
| Ranking.NamedHead | app.py:107-110 | the named head holds, in order, the customers `head(10)` kept, each with its true aggregate and its mapped name |
| Ranking.NamedHeadEntries | app.py:110 | attaching names keeps each entry's sum and count |
| Ranking.NamedHeadCodes | app.py:110 | attaching names keeps the same customers |
| Ranking.NamedHeadDistinct | app.py:110 | attaching names creates no duplicate rows |
| Ranking.TopEntries | app.py:107-113 | each charted row carries its customer's own sum, count and mapped name, and the charted customers are exactly those `head(10)` kept |
| Ranking.TopNames | app.py:95-110 | each charted name occurs on one of that customer's rows |
| Ranking.TopDistinct | app.py:98-113 | no customer is charted twice |
| Ranking.TopDominates | app.py:104-113 | every charted customer has at least the revenue of every selected customer not charted |
| Lifecycle.FirstDay | app.py:128-129 | the earliest date of the rows: no row is earlier and some row has it |
| Lifecycle.LastDay | app.py:121 | the latest date of the rows (`data_atual`): no row is later and some row has it |
| Lifecycle.SpanOf | app.py:128-131 | a customer's first purchase is no later than their last, which is no later than the anchor |
| Lifecycle.Spans | app.py:128-131 | `clientes_info` has one row per selected customer, ascending by code, each with that customer's first and last purchase |
| Lifecycle.StatusOf | app.py:124-136 | a customer is "Novo" exactly when the first purchase is after anchor − 365, "Perdido" exactly when the last purchase is before anchor − 790, and "Recorrente" exactly when neither holds |
| Lifecycle.Classify | app.py:134-136 | the status column has one entry per customer, each the status that the default and the two overwrites leave |
| Lifecycle.Tally | app.py:139 | the three counts add up to the number of statuses |
| Lifecycle.TallyTotal | app.py:139 | every status is counted under exactly one of the three categories |
| Lifecycle.CountCustomers | app.py:139 | with one entry per customer, each count is the number of customers having that status |
| Lifecycle.CodesWithCons | app.py:139 | with codes ascending, the first customer is not counted again among the rest |
| Lifecycle.SpanCodes | app.py:121-136 | the customers classified "Novo" or "Perdido" are exactly those whose first or last purchase passes the threshold |
| Lifecycle.Segment | app.py:121-139 | the counts add up to the number of customers; "Novo" counts the customers whose first purchase is after anchor − 365, "Perdido" those whose last purchase is before anchor − 790; all are 0 for an empty selection |
| Lifecycle.SeveralYearsTwoRows | app.py:118 | buying in two different years takes at least two purchases |
| Lifecycle.DocumentedStatus | app.py:116-118 | a customer gets "Recorrente" only when they bought in more than one year; every status given agrees with the code's, and the customers left without a status are exactly the code's "Recorrente" customers who bought in one year only |
| Retention.YearColumn | app.py:143 | the `ANO VENDA` column has one entry per row, and its values are exactly the years with a sale |
| Retention.Years | app.py:146 | the years are strictly ascending and are exactly the years with at least one sale |
| Retention.CustomersIn | app.py:146 | a year's customers are the selected customers with at least one row in it |
| Retention.Duplicated | app.py:149 | `duplicated(keep=False)` marks exactly the rows whose (year, customer) pair occurs on at least two rows |
| Retention.ReturningIn | app.py:149 | a customer is counted as returning in a year exactly when they have at least two rows in it, and is then among that year's customers |
| Retention.ReturningSubset | app.py:146-149 | a year has no more returning customers than distinct customers |
| Retention.Rate | app.py:152 | the rate times the number of customers is 100 times the number of returning customers; it lies in [0, 100], is 0 exactly when there are no returning customers, and is 100 exactly when all are returning |
| Retention.Point | app.py:152 | a year's point carries that year and a rate in [0, 100] that is 0 exactly when nobody returned |
| Retention.RetentionByYear | app.py:152-158 | one point per year with a sale, years ascending, each rate that year's rate and within [0, 100] |
| Retention.Points | app.py:152-158 | one point per requested year, in that order |
| Retention.RateZero | app.py:149-152 | a year's rate is 0 exactly when no customer has two rows in it |
| Retention.RateFull | app.py:149-152 | a year's rate is 100 exactly when every customer of the year has at least two rows in it |
| Scenarios.NameScenario | app.py:95 | rows named "A", "B", "A" for one code give that customer the name "B" |
| Scenarios.CadenceScenario | app.py:65-90 | purchases on days 0, 151 and 365 give one customer, the summed revenue and a mean gap of 182 days |
| Scenarios.LifecycleScenario | app.py:121-136 | with the latest sale on day 1000, a purchase on day 990 makes a customer new and a purchase on day 0 makes one lost |
| Scenarios.SinglePurchaseReturning | app.py:118-136 | a customer with a single purchase on day 500, when the latest sale is on day 1000, is classified "Recorrente" although they bought in one year only |

## Left out

- Loading the spreadsheet, caching, and reading the CSS file: these are file I/O.
- The Streamlit session state, the sidebar widgets, the reset button and the
  rerun: these are UI state. The date range and the product set are the
  parameter `Selection` instead.
- Rendering and formatting: the metric cards, the Plotly charts, the layout,
  and the currency and day formatting of lines 160-261.
- Floating point: amounts are exact integer cents, and the averages and rates
  are exact `real` values. pandas rounding error is not modelled.
- Cadence.MeanGapDays: works on whole-day dates. The pandas `Timedelta` mean
  has sub-day precision. For whole-day dates, `.days` is the floor of the mean
  that the model computes. Times of day inside `DATA VENDA` are not modelled.
- Tie order of the unstable `sort_values` calls (lines 104 and 113). The
  contracts state the order and the permutation, never which of two tied rows
  comes first. So with ties at the tenth place, the model does not say which
  tied customer `head(10)` keeps.
- Calendar arithmetic of `.dt.year`: the year is the parameter `yearOf`.
- Adding the `DIFF` and `ANO VENDA` columns to the frame in place. They are
  computed as sequences (`Cadence.DiffColumn`, `Retention.YearColumn`) next to
  the rows.
- The empty selection. Revenue per customer (line 75) is NaN there, and the
  model returns `None`. Purchases per customer (line 78) divides the Python
  integer 0 by 0, which raises ZeroDivisionError, so nothing after line 78 is
  computed. The model returns `None` in its place and carries on: the mean
  gap is `None`, and `Lifecycle.Segment` gives zero customers in every status.
- Retention.Point: does not state that the rate times the number of customers
  is 100 times the number of returning customers; `Retention.Rate` states it.
- The segmentation counts follow the code, not `Lifecycle.DocumentedStatus`.
  That definition leaves some customers without a status, so it has no count
  to feed.
- Lifecycle.Tally: always has all three counts. `value_counts` leaves out a
  status no customer has and orders the rest by frequency.
- Missing values inside the sheet (a blank code, date or amount) are not
  modelled. Every row has all five fields.

## Findings

| source | as written | input that shows it | evidently intended | confidence | as-written member | corrected member |
|---|---|---|---|---|---|---|
| app.py:118-136 | every customer who is neither new nor lost is labelled "Recorrente" | a single purchase on day 500, with the latest sale of the selection on day 1000 | "Recorrente" only for a customer who bought in more than one year, as the comment at line 118 defines it | low, not executed | Scenarios.SinglePurchaseReturning | Lifecycle.DocumentedStatus |
