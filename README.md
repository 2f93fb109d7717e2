# Loan-history ledger, modelled in Dafny

This project models the `LoanHistory` ledger of a micro-finance loan
tracker. The ledger is one table, `loan_history`. It holds one snapshot
row per loan per day, keyed by `(loan_id, date)`. The model covers:

- the write path `write_for`, which copies a loan's status and four
  outstanding figures from the amortization engine into a new row;
- the read path, the aggregation queries over that table:
  - recent defaulters, and a branch's arrears;
  - the last defaulted state of each loan under a branch, center or
    client group;
  - outstanding balances grouped by client group, or scoped to one
    organisational object;
  - money disbursed under a branch, center or client group, which reads
    the origination tables and not the ledger.

How the source is represented:

- The table is a sequence of rows. The primary-key constraint on
  `(loan_id, date)` is the `Valid()` invariant of the `LoanHistory`
  class, and `WriteFor` preserves it.
- Each SQL statement is a pure function over that sequence, built from
  `Where` (WHERE), `SumOf`/`SqlSum` (SUM, NULL over no rows), `Distinct`
  (COUNT(DISTINCT ...)) and `GroupMax` (GROUP BY ... MAX(...)).
- The two-phase queries are "per loan, the max date of the rows passing
  a filter; then fetch the rows at those keys". They share
  `LatestPerLoan`. On a keyed table, its lemmas prove that the fetch
  returns exactly one row per qualifying loan, and that this row is the
  loan's latest qualifying row.
- Dates are day numbers. The database clock `now()` is a parameter
  `Instant(day, second)`.
- Most nullable columns are `Option`s. Two are not:
  - `status` (app/models/loan_history.rb:27) is a plain integer. A NULL
    status would behave in every query like a value outside `{5, 6}`.
  - `current` (line 9) is a boolean. A NULL flag fails `current=1`,
    exactly as false does.

  Neither choice changes a query result. The overdue status set is the
  stored values `{5, 6}`.

Three behaviours of the code are easy to misread, and the model keeps them:

- `write_for` uses `create`, which is an INSERT. A second write for an
  existing `(loan_id, date)` is refused by the key constraint; the row is
  neither overwritten nor given a higher `run_number`. `run_number` stays 0.
- `defaulted_loan_info` keeps a loan only when its largest elapsed time
  is strictly below `days`. A loan whose oldest mismatch is exactly `days`
  old is not returned (`ScenarioRecentDefaulters`).
- `sum_outstanding_by_group` returns `false` (here `None`) when nothing
  matches, not an empty list. Its lines hold plain sums and advance sums,
  with no separate "due" column.

## Model

| member | source | states |
|---|---|---|
| `LoanHistoryStore.LoanHistory.WriteFor` | app/models/loan_history.rb:61-76 | Stores nothing and reports the missing fields, in validation order, when the loan or an outstanding figure is absent. Stores nothing and reports a duplicate when `(loan_id, date)` already has a row. Otherwise appends one row with the engine's status and four figures, `run_number` 0, and the flag, default amount, days overdue and organisational ids unset. Keeps the key invariant, and leaves exactly one row for the key. |
| `LoanHistoryStore.MissingFields` | app/models/loan_history.rb:35 | Lists a field exactly when it is absent. The list is empty exactly when the loan and all four outstanding figures are present. |
| `LoanHistoryStore.KeyCountIsOne` | app/models/loan_history.rb:4-6 | In a keyed table, a key occurs exactly once if it occurs at all. |
| `Relation.GroupMax` | app/models/loan_history.rb:143-146 | Has one entry per group value present in the rows. Each entry is at least the value of every row of its group, and some row of the group attains it. |
| `Relation.Distinct` | app/models/loan_history.rb:191-192 | Holds exactly the non-NULL key values of the rows, and has no more elements than there are rows. |
| `LoanHistoryRows.LatestDatesEmpty` | app/models/loan_history.rb:147 | Phase one finds no loan exactly when no row passes the filter. |
| `LoanHistoryRows.LatestPerLoanIsLatest` | app/models/loan_history.rb:142-153 | On a keyed table, every fetched row passes the filter and has its loan's greatest date among the passing rows. |
| `LoanHistoryRows.LatestPerLoanCovers` | app/models/loan_history.rb:142-153 | Every loan with a passing row is fetched. |
| `LoanHistoryRows.LatestPerLoanOnePerLoan` | app/models/loan_history.rb:142-153 | On a keyed table, no loan is fetched twice. |
| `LoanHistoryRows.FirstInOrder` | app/models/loan_history.rb:154-155 | Returns one of the rows, and it sorts no later than any other row by branch_id then center_id, with NULLs first. |
| `DefaultQueries.DefaultedLoanInfo` | app/models/loan_history.rb:98-106 | A loan is returned exactly when it has a principal-mismatched row dated before now, and every such row is fewer than `days` days old. |
| `DefaultQueries.DefaultedLoanInfoMonotone` | app/models/loan_history.rb:105 | A larger `days` never drops a loan. |
| `DefaultQueries.RepeatDefaultIsMissed` | app/models/loan_history.rb:99-105 | A loan that defaulted, caught up, and defaulted again a day ago is not returned for a 7-day window. |
| `DefaultQueries.ScenarioRecentDefaulters` | app/models/loan_history.rb:100-105 | On day 6, a loan first behind on day 3 is excluded for `days` = 3 and included for `days` = 4. |
| `DefaultQueries.DefaultedLoanInfoByBranch` | app/models/loan_history.rb:108-118 | Both sums are NULL together, exactly when no current mismatched row of the branch up to the date is behind on both figures. Otherwise both sums are positive. |
| `DefaultQueries.DefaultedLoanInfoByBranchStep` | app/models/loan_history.rb:110-117 | Adding a row that is current, of the branch, dated up to the date, off schedule on principal and behind on both figures adds its principal and total arrears to the two sums; a NULL sum becomes that row's arrears. Adding any other row changes neither sum. With the empty-table case, this fixes both sums as the arrears totals of exactly the qualifying rows. |
| `DefaultQueries.OneSidedRowIgnored` | app/models/loan_history.rb:117 | A row behind on only one of principal and total changes neither sum. |
| `DefaultQueries.ScenarioBranchExposure` | app/models/loan_history.rb:110-117 | The concrete branch is 200 behind on both figures, from its current row. |
| `DefaultQueries.DefaultedLoanInfoFor` | app/models/loan_history.rb:120-156 | Returns nil exactly when no row of the object is in default before the date; the result's kind follows the mode. Aggregate mode gives the summed total and principal arrears over the fetched latest rows. Listing mode gives the line of a fetched row that sorts first by branch and center. |
| `DefaultQueries.DefaultedAggregateRows` | app/models/loan_history.rb:142-153 | On a keyed table, the rows that are listed or summed are one row per loan in default, each that loan's latest defaulted row before the cutoff. |
| `OutstandingQueries.GroupOutstanding` | app/models/loan_history.rb:165-171 | The advance sums are non-negative and at least scheduled minus actual. They are 0 when no row is ahead of schedule. |
| `OutstandingQueries.GroupOutstandingStep` | app/models/loan_history.rb:165-171 | The sums of no rows are all 0. One more row adds its scheduled and actual principal and total to the four plain sums, and `max(0, scheduled - actual)` of each figure to the two advance sums. |
| `OutstandingQueries.AdvanceBounds` | app/models/loan_history.rb:170-171 | Summing `max(0, scheduled - actual)` gives a non-negative value, at least the net scheduled-minus-actual, and 0 when no row is ahead. |
| `OutstandingQueries.ByGroup` | app/models/loan_history.rb:164-176 | Has one line per client_group_id present, NULL included, and each line keeps the advance bounds. |
| `OutstandingQueries.ByGroupStep` | app/models/loan_history.rb:164-176 | One more row changes only the line of its own client_group_id: that line, created with zeros when the group is new, grows by the row's six contributions, and every other group's line is unchanged. |
| `OutstandingQueries.SumOutstandingByGroup` | app/models/loan_history.rb:159-178 | Returns false exactly when no row is overdue within the date range. Otherwise returns a non-empty set of group lines over the latest overdue row of each loan. |
| `OutstandingQueries.ScenarioTwoLoansOneGroup` | app/models/loan_history.rb:159-177 | Two loans of one group, one 100 behind and one 50 ahead, give a single line with an advance of 50. |
| `OutstandingQueries.SumOutstandingFor` | app/models/loan_history.rb:181-198 | No line when no current overdue row of the object is in range. Otherwise the due sums are ≥ 0 and the advance sums ≤ 0. Due plus advance equals the plain actual sums. 1 ≤ loans_count ≤ rows read, and clients_count ≤ rows read. |
| `OutstandingQueries.SumOutstandingForStep` | app/models/loan_history.rb:184-195 | One more row that is of the object, current, in range and overdue adds its scheduled figures to the scheduled sums, `max(0, actual)` to the due sums and `min(0, actual)` to the advance sums. It adds one to loans_count unless an earlier such row has its loan, and one to clients_count unless its client is NULL or already counted. Any other row changes nothing. |
| `OutstandingQueries.SumOutstandingForAdditive` | app/models/loan_history.rb:184-196 | For a table split in two parts that each have a matching row, every sum of the whole is the sum of the parts' sums, and no count exceeds the parts' counts added. |
| `Disbursement.AmountDisbursedFor` | app/models/loan_history.rb:200-224 | The amount is NULL exactly when the count is 0. The count is 0 exactly when no loan under the object is disbursed in range and undeleted. The count never exceeds the number of loans. |
| `Disbursement.AmountDisbursedForStep` | app/models/loan_history.rb:200-223 | One more loan that is under the object, disbursed within the range and not deleted adds one to the count and its amount to the amount; a NULL amount becomes its amount. Any other loan changes neither figure. |
| `Disbursement.CenterWithinBranch` | app/models/loan_history.rb:201-214 | A center never counts more disbursed loans than its branch. |
| `Disbursement.DeletedLoanIgnored` | app/models/loan_history.rb:205 | Adding a deleted loan changes neither the amount nor the count. |
| `WriteVisibility.NonCurrentRowUnseen` | app/models/loan_history.rb:61-69 | A row without the current flag, such as one `write_for` creates, changes neither `sum_outstanding_for` nor `defaulted_loan_info_by_branch`. |

## Left out

- `add_group` (lines 40-55): a deprecated backfill whose loop calls `Client.get`, `save` and `puts`.
- `make_insert_for` (lines 79-82): it calls `history_for` and `status`, which do not exist at class level.
- The first `sum_outstanding_for(date, loan_ids)` (lines 84-96): the definition at line 181 replaces it.
- app/controllers/accounting_periods.rb: request/response glue with no ledger logic.
- How SQL is built and sent, `Merb.logger`, `created_at`, `week_id`, and the due/paid columns that no query reads.
- The amortization engine is an oracle (`LoanOracle`), and the clock is a parameter. How the `current` flag is maintained elsewhere is not modelled; `current` is a stored field.
- LoanHistoryStore.LoanHistory.WriteFor: two raises become outcomes. A nil loan fails at `loan.get_status` (line 65) before the validation of line 35 can run; the model returns `Invalid` listing the loan and every figure instead. A duplicate `(loan_id, date)` makes the INSERT of `create` fail in the database adapter; the model returns `DuplicateKey` and leaves the table unchanged. Only the presence validation of line 35 is checked. The persistence library's automatic presence checks are not modelled: those for the `:nullable => false` due/paid columns (lines 22-25), and those for `client`, `center` and `branch` (lines 30, 32, 33), which are not declared nullable and which `write_for` leaves unset.
- Default arguments are not modelled; every argument is explicit: `days = 7` and `date = Date.today` (lines 98, 108, 120), `type = :aggregate` (line 120), and `from_date = Date.today-7`, `to_date = Date.today` (line 181).
- DefaultQueries.DefaultedLoanInfo: the `date` argument is accepted and ignored, as in the source. The unused `query` argument (lines 98, 108) is dropped from both `DefaultedLoanInfo` and `DefaultedLoanInfoByBranch`.
- DefaultQueries.DefaultedLoanInfoFor: the store may return any row among ties on (branch_id, center_id). The model returns the earliest in table order, and its contract only says the row sorts first.
- DefaultQueries.DefaultedLoanInfoFor and Disbursement.AmountDisbursedFor: objects other than a branch, center or client group leave the SQL unset and the call fails. They are excluded by a `requires`.
- OutstandingQueries.SumOutstandingByGroup: the non-aggregated `center_id` column (line 173) is left out, as MySQL picks an arbitrary row's value for it.
- OutstandingQueries.SumOutstandingFor: the non-aggregated `branch_id` column (line 193) is left out for the same reason. The sixth column is aliased `advacne_total` in the source; the model names it `advanceTotal`.
- Composing a branch's totals from its centers' is not stated. The organisational ids on rows are captured at write time and need not agree with the current hierarchy. The model proves additivity over a split of the table instead.
- Results do not depend on row order, except where noted above. This is not stated as a lemma.
- Concurrency and transaction isolation between writers and readers are not modelled.
