# Balance ledger — a Dafny model

This project models the balance module of a small Laravel application. The module keeps one
balance row per user and an append-only table of transaction records. It offers four
operations: deposit, withdraw, transfer between two users, and a balance lookup.

Each mutating action runs inside one database transaction. It either commits all of its writes
or rolls back and leaves the ledger as it was. The model writes each action as a pure function
from a ledger to a `Step`. A step holds the outcome and the ledger after commit or rollback.

- **Ledger** (`Store.Ledger`): the balances table as `map<UserId, Cents>`, the transactions
  table as `seq<Tx>` in insertion order, and the next auto-increment id. Money is in whole
  cents, because both amount columns are cast `decimal:2`.
- **Store operations** (`Store.Find`, `FirstOrCreate`, `Save`, `Create`, `SetRelated`): the
  Eloquent calls the actions make. Each action's body strings them together in the same order
  as the code. A receiver balance that was read before the sender's debit was saved therefore
  stays a stale copy in the model too.
- **Failure path**: `Transaction::create` raises when a value does not fit its column. Amounts
  must fit decimal(15, 2), which is at most 999 999 999 999 999 cents. Comments must fit a
  255-character string column. The model assumes a store in strict mode and turns that
  exception into `Failed` (status 500) with the ledger unchanged. This is the `catch`/`rollBack`
  branch of every action.
- **Outcomes** (`Outcomes.Outcome`): `Ok(data)` (200), `NoBalanceRecord` (404),
  `InsufficientFunds(current, requested)` (409) and `Failed` (500).
- **Invariant** (`Store.Valid`): every committed state satisfies all of the following:
  - no balance is negative;
  - ids are below the counter and increase;
  - amounts are positive and fit their column;
  - deposit and withdraw records carry no link;
  - each transfer leg is stored right beside its partner, and the two legs point at each
    other, have equal amount and comment, and belong to different users;
  - every record's user has a balance row;
  - every balance equals the signed sum of its owner's records;
  - the sum of all balances equals deposits minus withdrawals.

  Every action preserves `Valid`, and so does any history of requests (`Dispatch.History`).
- **Requests** (`Validation`, `WithdrawRequest`, `TransferRequest`): the validator rules as a
  set of violations. A missing field is reported only as required. A null comment skips its
  other rules. The model checks the `different` rule only when both ids are present. `Validate`
  accepts exactly when every rule holds, and an accepted payload meets the action's
  precondition.
- **Dispatch** (`Dispatch.Handle`): the controller's order of work, which is to validate first
  and then run the action. It returns the status and the new ledger.

`TransferAction.Run` is the transfer exactly as written, and nothing in it compares the two
users. `TransferAction.Execute` adds `from != to`, which the transfer validator's
`different:from_user_id` rule enforces for integer ids. `TransferAction.SameUserMintsMoney` shows why this precondition is
needed. With one user on both sides, the stale receiver copy overwrites the debit, the user
gains the amount, and the reported sender balance differs from the stored one.

Where the code differs from a stricter design, the model follows the code:
- Same-user transfers are rejected by the validator with 422, not by the action.
- The sufficiency check is a read-compare-write inside the transaction, not an atomic
  decrement with a floor.
- Store failures surface as status 500 after rollback.

## Model

| member | source | states |
|---|---|---|
| Store.FirstOrCreate | app/Modules/Balance/Actions/DepositAction.php:19-22 | the user ends up with a row; an existing row keeps its balance and a new one holds 0; no other row and no record changes |
| Store.Find | app/Modules/Balance/Actions/WithdrawAction.php:19 | a lookup finds a row exactly when the user has one, and then reports its stored balance; a user without a row counts as 0 |
| Store.Save | app/Modules/Balance/Actions/TransferAction.php:44-49 | saving a balance copy makes the row hold exactly that value, even when the copy is stale; no other row, no record and not the counter changes |
| Store.SetRelated | app/Modules/Balance/Actions/TransferAction.php:68-70 | back-filling a link sets only the `related` field of that one record; its id, user, type, amount and comment, every other record, the balances and the counter stay as they were |
| Store.Create | database/migrations/2025_10_28_152309_create_transactions_table.php:15-20 | an insert succeeds exactly when amount and comment fit their columns; the row gets the counter's id, is appended at the end, and the counter moves past it |
| Store.EmptyIsValid | database/migrations/2025_10_28_152309_create_transactions_table.php:14-21 | an empty database satisfies the ledger invariant |
| Store.CommitSingle | app/Modules/Balance/Actions/WithdrawAction.php:38-47 | appending one unlinked deposit or withdraw record while moving its owner's balance by the record's effect keeps every part of the invariant, when the new balance is non-negative |
| Store.CommitLegs | app/Modules/Balance/Actions/TransferAction.php:44-70 | appending a mutually linked out-leg and in-leg while debiting the sender and crediting the receiver keeps the invariant, when the sender stays non-negative |
| Store.LinksResolve | database/migrations/2025_10_28_152309_create_transactions_table.php:20 | in a valid ledger every related_transaction_id names another stored record |
| Store.IdsUnique | database/migrations/2025_10_28_152309_create_transactions_table.php:15 | in a valid ledger no two records share an id |
| Outcomes.StatusCode | app/Modules/Balance/Actions/TransferAction.php:23-88 | 200 exactly on success, 404 exactly when there is no balance row, 409 exactly on insufficient funds, 500 exactly on a rolled-back failure |
| DepositAction.Execute | app/Modules/Balance/Actions/DepositAction.php:13-51 | succeeds exactly when the record fits its columns; then the balance becomes old balance (0 for a new row) plus amount, no other balance changes, exactly one unlinked deposit record with the same user, amount and comment is appended, and the receipt reports the stored balance and the amount; otherwise the result is Failed and the ledger is unchanged |
| DepositAction.PreservesValid | app/Modules/Balance/Actions/DepositAction.php:19-34 | a deposit keeps the ledger invariant: balances non-negative, trail well formed, balances matching records, total equal to deposits minus withdrawals |
| DepositAction.AddsToTotal | app/Modules/Balance/Actions/DepositAction.php:25-26 | the sum of all balances grows by exactly the amount on success and is unchanged otherwise |
| WithdrawAction.Execute | app/Modules/Balance/Actions/WithdrawAction.php:13-64 | no row gives NoBalanceRecord; balance below the amount gives InsufficientFunds carrying both figures; in both cases the ledger is unchanged; equality is allowed; on success the balance drops by the amount and stays non-negative, one unlinked withdraw record is appended and the receipt matches the stored balance; a record that does not fit gives Failed with nothing changed |
| WithdrawAction.PreservesValid | app/Modules/Balance/Actions/WithdrawAction.php:27-47 | a withdraw keeps the ledger invariant, in particular no balance goes negative |
| WithdrawAction.TakesFromTotal | app/Modules/Balance/Actions/WithdrawAction.php:38-39 | the sum of all balances shrinks by exactly the amount on success and is unchanged otherwise |
| TransferAction.Run | app/Modules/Balance/Actions/TransferAction.php:13-89 | for any pair of users: a sender without a row gives NoBalanceRecord and creates no receiver row; a short sender gives InsufficientFunds; both leave the ledger unchanged; success happens exactly when the sender holds at least the amount and the records fit |
| TransferAction.Execute | app/Modules/Balance/Actions/TransferAction.php:38-85 | for different users, success debits the sender and credits the receiver, whose new row starts at 0, and touches no one else; it appends transfer_out for the sender then transfer_in for the receiver, with equal amount and comment and linked to each other's ids; the receipt's balances equal the stored ones |
| TransferAction.ConservesTotal | app/Modules/Balance/Actions/TransferAction.php:44-49 | a transfer between different users leaves the sum of all balances unchanged |
| TransferAction.PreservesValid | app/Modules/Balance/Actions/TransferAction.php:38-70 | a transfer keeps the ledger invariant, including the mutual link of its two legs |
| TransferAction.SameUserMintsMoney | app/Modules/Balance/Actions/TransferAction.php:38-49 | without the validator's guard, a same-user transfer leaves the user with old balance plus the amount, raises the total by the amount, and reports a sender balance that is not the stored one |
| GetBalanceAction.Execute | app/Modules/Balance/Actions/GetBalanceAction.php:10-32 | found exactly when the user has a row, and then reports that user and the stored balance; otherwise NoBalanceRecord with status 404 |
| GetBalanceAction.ReportsAuditedBalance | app/Modules/Balance/Actions/GetBalanceAction.php:23-31 | in a valid ledger a reported balance is non-negative and equals the signed sum of the user's records, and a user without a row has no records |
| Validation.UserRules | app/Modules/Balance/Requests/WithdrawRequest.php:27 | a user id passes exactly when it is present and names a known user |
| Validation.AmountRules | app/Modules/Balance/Requests/WithdrawRequest.php:28 | an amount passes exactly when it is present and at least one cent |
| Validation.CommentRules | app/Modules/Balance/Requests/WithdrawRequest.php:29 | a comment passes exactly when it is null or at most 255 characters |
| WithdrawRequest.Validate | app/Modules/Balance/Requests/WithdrawRequest.php:24-31 | accepted exactly when all three rules hold, with the payload copied unchanged and a positive amount; a rejection lists, for each field, exactly the rule it breaks (missing id, unknown user, missing amount, amount below one cent, comment too long) and nothing else |
| TransferRequest.Validate | app/Modules/Balance/Requests/TransferRequest.php:24-31 | accepted exactly when both users are present and known, they differ, the amount is at least one cent and the comment fits; an accepted payload has from != to and a positive amount; a rejection lists exactly the broken rules, the same-user violation included exactly when both ids are present and equal, and nothing else |
| TransferRequest.DifferentRule | app/Modules/Balance/Requests/TransferRequest.php:28 | the `different:from_user_id` rule reports at most the same-user violation, and reports it exactly when both ids are present and equal |
| TransferRequest.ViolationReasons | app/Modules/Balance/Requests/TransferRequest.php:24-31 | each of the eight possible violations appears exactly when its rule fails, and no other violation can appear |
| TransferRequest.SameUserRejected | app/Modules/Balance/Requests/TransferRequest.php:28 | a request with the same user on both sides is rejected, and the same-user violation is among the reasons |
| Dispatch.Handle | app/Modules/Balance/Controllers/BalanceController.php:26-69 | every reply is 200, 404, 409, 422 or 500; every non-200 reply leaves the ledger unchanged; a balance read never changes it; a withdraw or transfer request gets 422 exactly when it breaks a rule, so only valid payloads reach the action; a same-user transfer always gets 422 |
| Dispatch.HandlePreservesValid | app/Modules/Balance/Controllers/BalanceController.php:26-69 | serving any request keeps the ledger invariant |
| Dispatch.TransferRequestConserves | app/Modules/Balance/Controllers/BalanceController.php:52-57 | a transfer request, valid or not, never changes the sum of all balances |
| Dispatch.ReplayPreservesValid | app/Modules/Balance/Controllers/BalanceController.php:26-69 | any sequence of requests keeps a valid ledger valid |
| Dispatch.History | app/Modules/Balance/Actions/TransferAction.php:52-70 | after any history from an empty database, no balance is negative, all balances sum to deposits minus withdrawals, each balance matches its owner's records, and every transfer leg sits beside its linked partner |
| Dispatch.RepeatedDeposits | app/Modules/Balance/Actions/DepositAction.php:19-34 | n deposits of one amount into a fresh account leave exactly n times the amount and n deposit records with consecutive ids |
| Scenarios.DepositIntoNewAccount | tests/Feature/BalanceModuleTest.php:28-53 | depositing 500.00 into a new account gives balance 500.00 and one deposit record of 500.00 with the comment |
| Scenarios.DepositThenWithdraw | tests/Feature/BalanceModuleTest.php:56-80 | a deposit of 500.00 then a withdraw of 200.00 leaves 300.00 |
| Scenarios.WithdrawMoreThanHeld | tests/Feature/BalanceModuleTest.php:84-108 | withdrawing 200.00 from 100.00 gives 409 InsufficientFunds(100.00, 200.00) and the balance stays 100.00 |
| Scenarios.TransferBetweenUsers | tests/Feature/BalanceModuleTest.php:112-157 | 500.00 at A and a transfer of 150.00 to B give A 350.00 and B 150.00, with a transfer_out and a transfer_in of 150.00 linked to each other |
| Scenarios.TransferMoreThanHeld | tests/Feature/BalanceModuleTest.php:161-180 | transferring 200.00 from 100.00 gives InsufficientFunds, changes nothing and creates no receiver row |
| Scenarios.BalanceAfterDeposit | tests/Feature/BalanceModuleTest.php:184-201 | after a deposit of 350.00 the lookup reports 350.00 |
| Scenarios.BalanceWithoutRecord | tests/Feature/BalanceModuleTest.php:205-213 | a lookup for a user without a row gives NoBalanceRecord |
| Scenarios.NegativeDepositRejected | tests/Feature/BalanceModuleTest.php:217-225 | a negative deposit is answered 422 and changes nothing |
| Scenarios.TransferToSelfRejected | tests/Feature/BalanceModuleTest.php:228-237 | a same-user transfer request is answered 422 and changes nothing |

## Left out

- Concurrency is not modelled: the read-compare-write race, row locks, lock ordering and
  timeouts. Each action is one sequential, atomic transition.
- Store failures other than a value too large for its column are not modelled, for example a
  lost connection or a deadlock. Their effect is the same rollback to `Failed`.
- The model assumes a strict-mode store. A lenient store would truncate an oversized value
  instead of raising.
- The balances table's migration is not part of this model, so balances are unbounded
  integers.
- Amounts are whole cents. Fractional cents, and PHP's coercion of numeric strings and floats,
  are not modelled. The `integer`, `numeric` and `string` rules are carried by the Dafny types.
- DepositRequest.php is not part of this model. `Dispatch.Handle` guards deposits only with an
  amount of at least one cent, which is the rule that tests/Feature/BalanceModuleTest.php:217-225
  exercises.
- `DepositAction.Execute` has no comment-length precondition for the same reason. A comment too
  long for its column takes the `Failed` path.
- User existence (`exists:users,id`) is a parameter, `users`, because the users table is not
  part of this model. Deposits do not consult it.
- TransferRequest.Validate compares ids as integers. Different spellings of one id in the request
  body, such as `1`, `"1"` and `"+1"`, are not modelled. The framework's `different` rule may compare
  the raw values, and the framework is not part of this model. If such a pair passes every rule, the
  action runs with one user on both sides, which is the case `TransferAction.SameUserMintsMoney`
  describes.
- Store.Create does not check the `user_id` foreign key of the transactions table, because the
  users table is not part of the ledger. A deposit for a user id missing from `users` therefore
  succeeds in the model. In the source, the insert would raise, and the action would roll back
  with 500, unless the deposit request's rules reject the id first.
- The JSON envelope, the messages and the `Helper` response functions are not modelled. Replies
  are reduced to outcomes and status codes.
- The DTOs are field copies with no logic, so they are not modelled.
- Timestamps are not modelled.
- The foreign keys' `onDelete` cascade and set-null behaviour is not modelled, because no code
  path deletes anything.
- Eloquent relationship helpers are not modelled.
- Two balance reads with no write in between return the same result. This needs no lemma:
  `GetBalanceAction.Execute` is a function of the ledger alone, and `Dispatch.Handle` leaves the
  ledger unchanged for a balance request.
- TransferAction.Execute requires `from != to`, which the action itself does not check. The
  transfer validator's `different` rule provides it only as the model reads that rule, with both ids
  compared as integers. `TransferAction.Run` models the unguarded code, and
  `TransferAction.SameUserMintsMoney` states what that code does for one user.
