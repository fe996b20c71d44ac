# Interest accrual batch of a Django banking application

This project models the `calculate_interest` task of the banking
application (`transactions/tasks.py`) and proves what one run of it does to
the stored accounts and to the transaction ledger.

A run works in three steps.

1. It fetches the accounts that are eligible for interest. An account is
   eligible when its balance is above zero, its interest start date is at
   or before now, and it has an initial deposit date.
2. It goes through the fetched accounts in order. When the current month is
   one of the account's interest months, it asks the account type for the
   interest on the balance. It adds that interest to the account object in
   memory. It stages one `INTEREST` transaction in `created_transactions`
   and the account in `updated_accounts`. An exception raised for one
   account is caught, and the loop goes on to the next account.
3. Inside the same atomic block it bulk-inserts the staged transactions and
   bulk-updates the `balance` column of the staged accounts. Each write is
   issued only when its list is non-empty.

The files are:

- `accounts.dfy` (module `Accounts`) holds the data model: accounts,
  transactions, timestamps and the account-type policy.
- `accrual.dfy` (module `Accrual`) holds the run as specification functions
  and the lemmas about it. `EligibleAccounts` is the query, `Evaluate` is
  the per-account try block, `Stage` is the pair of staged lists,
  `ApplyBalances` is the balance-only bulk update, and `Run` is a whole run.
- `tasks.dfy` (module `Tasks`) holds the task as imperative code.
  `StageInterest` is the loop over an array of account objects. It updates
  each object in place and appends to the two lists. `Database` holds the
  stored accounts and the ledger, and its `CalculateInterest` method
  performs the atomic commit with rollback.

Modelling choices:

- Money is an integer number of cents. The interest amount may be any
  integer, because the rate functions are not part of this model.
- The clock is one injected `now: Timestamp`. The current month is
  `now.month`. Timestamps are ordered lexicographically on
  (year, month, day, second).
- The two policy calls are the fields of a `Policy` value. `months` stands
  for the account's `get_interest_calculation_months()` and `rate` stands
  for `account_type.calculate_interest(balance)` on the account's type. Each
  returns `None` where the call raises.
- The account table is a sequence with distinct ids. The query yields rows
  in that sequence's order.
- A storage failure is injected as `StorageFaults`. A bulk write fails only
  if it is issued and its flag is set. A failure rolls back the whole
  atomic block.
- An account whose interest comes out as zero is still staged, as the code
  does. It gets an INTEREST transaction of amount 0 and a balance write,
  although its balance does not change.
- The interest start date is nullable in the model. SQL's `<=` against NULL
  is never true, so an account without that date is filtered out like one
  whose date lies in the future.

## Model

| member | source | states |
|---|---|---|
| `Accrual.Eligible` | transactions/tasks.py:15-18 | definition, no contract: the query's filter on one account. Its meaning is stated by `Accrual.EligibleAccounts` and `Accrual.IneligibleUntouched` |
| `Accrual.Evaluate` | transactions/tasks.py:28-50 | definition, no contract: the per-account try block for a fetched account. Its meaning is stated by `Accrual.StageLockstep`, `Accrual.RunStaged`, `Accrual.AccruedCredited`, `Accrual.OffMonthUntouched` and `Accrual.FailedUntouched` |
| `Accrual.Effect` | transactions/tasks.py:15-50 | definition, no contract: the filter followed by the per-account decision, for a stored account. Its meaning is stated by `Accrual.RunStaged` and `Accrual.RunEffect` |
| `Accrual.Step` | transactions/tasks.py:30-46 | definition, no contract: one iteration of the loop on the two staged lists. Its meaning is stated by `Accrual.StageLockstep`, `Accrual.StageAppend` and `Accrual.StageSkipsUnaccrued` |
| `Accrual.Run` | transactions/tasks.py:15-46 | definition, no contract: the query followed by the loop. Its meaning is stated by `Accrual.RunAppend`, `Accrual.RunStaged`, `Accrual.RunEffect` and `Tasks.Database.CalculateInterest` |
| `Tasks.Settled` | transactions/tasks.py:30-35 | definition, no contract: an account object after `account.balance += interest` when it accrues, and unchanged otherwise. Its meaning is stated by `Tasks.StageInterest` |
| `Tasks.Commits` | transactions/tasks.py:52-58 | definition, no contract: the atomic block opened at line 26 commits unless an issued bulk write fails, where a write is issued only when its list is non-empty (the faults are the datatype `Tasks.StorageFaults`). Its meaning is stated by `Tasks.Database.CalculateInterest` |
| `Accrual.EligibleAccounts` | transactions/tasks.py:15-18 | the fetched accounts are exactly the stored accounts with balance > 0, an interest start date at or before now and an initial deposit date, and there are no more of them than stored accounts |
| `Accrual.EligibleAccountsAppend` | transactions/tasks.py:15-19 | the query keeps store order: filtering two parts of the store one after the other gives the filter of the whole store |
| `Accrual.EligibleAccountsDistinct` | transactions/tasks.py:15-19 | the fetched accounts have distinct ids, because the stored accounts do |
| `Accrual.Stage` | transactions/tasks.py:22-46 | the staged lists have equal length. Their k-th entries belong to the same account, which is one of the fetched accounts. Every staged transaction is of type INTEREST |
| `Accrual.StageLockstep` | transactions/tasks.py:27-46 | the k-th staged transaction and the k-th staged account come from the same fetched account, at positions that increase with k. That account accrues the transaction's amount, and its staged balance is the original plus that amount. Every accruing account has an entry |
| `Accrual.StageAppend` | transactions/tasks.py:27-46 | staging a list that is two parts one after the other gives the first part's lists followed by the second part's |
| `Accrual.StageSkipsUnaccrued` | transactions/tasks.py:28-50 | an account that raises or is outside its interest months contributes nothing. The accounts after it are staged exactly as if it were absent |
| `Accrual.StagedOnce` | transactions/tasks.py:27-46 | in one run no account appears twice in the updated accounts, and no account gets two interest transactions |
| `Accrual.RunAppend` | transactions/tasks.py:15-46 | a run follows store order: the batch of a store made of two parts is the first part's batch followed by the second part's |
| `Accrual.RunStaged` | transactions/tasks.py:15-46 | for every stored account the run stages exactly one INTEREST transaction of amount i and one account credited with i when the account accrues i, and nothing when it is ineligible, outside its months or failing |
| `Accrual.ApplyBalances` | transactions/tasks.py:57-58 | the bulk update keeps every stored account and writes only the balance field. An account without an entry is unchanged, and an account with entries gets the balance of the first one |
| `Accrual.RunEffect` | transactions/tasks.py:15-58 | after a committed run, an account that accrues i holds its balance plus i and carries exactly one INTEREST transaction of amount i. Every other account is stored as before and carries none |
| `Accrual.IneligibleUntouched` | transactions/tasks.py:15-18 | an account that the query filters out gets no transaction and no update entry, and keeps its stored record |
| `Accrual.OffMonthUntouched` | transactions/tasks.py:21-30 | an eligible account whose interest months do not contain the current month gets no transaction and no update entry, and keeps its stored record |
| `Accrual.FailedUntouched` | transactions/tasks.py:28-50 | an eligible account whose month lookup raises, or whose interest calculation raises in an interest month, gets no transaction and no persisted balance change |
| `Accrual.AccruedCredited` | transactions/tasks.py:30-46 | an eligible account in an interest month whose calculation returns `interest` gets exactly one INTEREST transaction of that amount, and its stored balance becomes the original plus that amount |
| `Accrual.RunConservesMoney` | transactions/tasks.py:26-58 | the sum of the stored balances after a committed run equals the sum before plus the sum of the staged INTEREST amounts |
| `Accrual.RerunAccruesAgain` | transactions/tasks.py:10-58 | worked example: 1000.00 at 1% every month becomes 1010.00 with one INTEREST transaction of 10.00. A second run in the same month accrues again, to 1020.10, so the task is not idempotent |
| `Tasks.StageInterest` | transactions/tasks.py:27-50 | the loop's two lists equal the staged lists of the fetched accounts. Each account object is credited in place when it accrues and is left as it was otherwise |
| `Tasks.Database.BulkCreate` | transactions/tasks.py:53-54 | the ledger gains exactly the staged transactions, appended in order. Accounts are unchanged |
| `Tasks.Database.BulkUpdateBalances` | transactions/tasks.py:57-58 | the stored accounts become the balance-only bulk update of the staged accounts. Ids stay distinct and the ledger is unchanged |
| `Tasks.Database.CalculateInterest` | transactions/tasks.py:15-58 | the run commits exactly when no issued bulk write fails. On commit the ledger gains the run's transactions and the accounts get the run's balance updates. Otherwise both are exactly as before the run |

## Left out

- Celery task registration (`@shared_task`) and scheduling are infrastructure and are not modelled.
- The two clock reads are replaced by a single injected `now`. The tiny difference between them, including a run that crosses a month boundary, is not modelled.
- Django ORM mechanics are not modelled: queryset laziness, `select_related`, the internals of `bulk_create` and `bulk_update`, and database isolation and locking. The store is a sequence, and the commit is all-or-nothing.
- The order in which the database returns the filtered rows is unspecified. The model uses store order.
- The bodies of `get_interest_calculation_months` and `account_type.calculate_interest` are not part of this model. They are left uninterpreted, with possible failure. Nothing is assumed about the sign or rounding of interest.
- The `print` of a caught error and the specific exception types are not modelled. A failure is `None` from the policy.
- Only the two policy calls can fail in the model. An exception raised by the `Transaction(...)` constructor after `account.balance += interest` is not modelled. Such an account would also not reach `updated_accounts`, so nothing would be persisted for it.
- Tasks.StageInterest: the objects in `updated_accounts` are aliases of the fetched account objects in the source. The model stores copies of their values. No object is changed after it is appended, so the two agree.
- Decimal precision and rounding are not modelled. Amounts are whole cents.
- Concurrent runs are not modelled. The task does nothing to prevent a second run from applying interest again, as `Accrual.RerunAccruesAgain` shows.
- `transactions/tasks.py:39-43` sets only the account, the type and the amount of a transaction, and the model records exactly these. The other Transaction columns, including any creation timestamp, are defined in `transactions/models.py`, which is not part of this model.
