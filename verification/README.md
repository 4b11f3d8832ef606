# Accounts service transfer coordinator, modelled in Dafny

This project models the transfer logic of the Spring `AccountsService` of an
asset-management application. A transfer request names a source account, a
destination account and an amount. The service:

1. resolves the source, then the destination, through the account repository,
   turning a `null` lookup into `AccountNotFoundException`;
2. validates the pair (`validate`): a defensive null check, then a refusal of a
   transfer from an account to itself (`TransferBetweenSameAccountException`);
3. inside its locked region, checks that the source's balance minus the amount
   is not negative (`enoughFunds`), else throws `NotEnoughFundsException`;
4. hands the repository one batch of two balance deltas, `-amount` on the
   source and `+amount` on the destination;
5. maps the repository's boolean reply to a returned status string.

The model is functional. The repository's data is an immutable
`map<string, real>` of balances (`Accounts.Store`). Dafny reals are exact,
which matches `BigDecimal` arithmetic and `compareTo`. Java exceptions become
the `Exceptions.Error` datatype carrying the exact message text. One call of
`transferAmount` becomes `AccountsService.TransferAmount`, returning a
`TransferOutcome`: the status or error, the batch handed to the repository
(`None` when no update was issued), and the store afterwards. The repository's
`updateAccounts` is modelled as an all-or-nothing application of the deltas;
whether it commits is the parameter `storeOk`.

`TransferProperties.Reference` is an independent statement of the outcome,
decided on the store alone in the order of the checks.
`TransferProperties.TransferAmountMatchesReference` proves that the service
agrees with it on every input. The other lemmas follow from it: which error
wins, that no update is issued on an error path, the exact batch, conservation
of the total balance (`Accounts.Total`), the frame, and non-negativity.

Points about the code's behaviour that the model keeps:
- The not-found message is `"Account " + id + " does not exist."`. The
  insufficient-funds message says "in account" and the success status is
  "Successfully transferred" (AccountsService.java:30, 58, 69). The test file
  expects "on account" and "Transferred Successfully"
  (TestAccountsService.java:75, 89); the model uses the strings of AccountsService.java.
- A failed batch update is returned as a status string, not thrown
  (AccountsService.java:72).
- The code never checks that the amount is positive. Lemmas that need a
  non-negative amount take it as a precondition.
  `TransferProperties.NegativeAmountCanOverdrawDestination` shows the
  consequence: a transfer of -10 between two empty accounts succeeds and leaves
  the destination at -10.

## Model

| member | source | states |
|---|---|---|
| `AccountsService.GetAccount` | src/main/java/com/db/asset/management/service/AccountsService.java:27-33 | succeeds exactly when the id is stored, returning that account and balance; otherwise fails with AccountNotFound "Account <id> does not exist." |
| `AccountsService.Validate` | src/main/java/com/db/asset/management/service/AccountsService.java:76-86 | passes iff both accounts are present with different ids; a missing account gives AccountNotFound "Please check account details."; equal ids give TransferBetweenSameAccount |
| `AccountsService.EnoughFunds` | src/main/java/com/db/asset/management/service/AccountsService.java:88-90 | holds iff the amount does not exceed the balance, so the whole balance may be moved |
| `AccountsService.TransferBatch` | src/main/java/com/db/asset/management/service/AccountsService.java:60-62 | the batch has two entries, debit of the source then credit of the destination by the amount; it names only those two ids and its deltas sum to zero |
| `AccountsService.TransferAmount` | src/main/java/com/db/asset/management/service/AccountsService.java:46-73 | an update is issued exactly when nothing is thrown, and only for two distinct known accounts with enough funds; an error leaves the store unchanged; the status is the success text iff the repository commits, else the retry text with the store unchanged; the total balance, the set of accounts and every other account are preserved |
| `AccountRepository.GetAccount` | src/main/java/com/db/asset/management/service/AccountsService.java:28 | the lookup answers an account exactly when the id is stored, and that account carries the looked-up id and its stored balance; otherwise it answers `null` |
| `AccountRepository.ApplyBatch` | src/main/java/com/db/asset/management/service/AccountsService.java:60-62 | applying the deltas keeps the set of accounts, and every account ends at its old balance plus the sum of the deltas that name it |
| `AccountRepository.DeltaForUnmentioned` | src/main/java/com/db/asset/management/service/AccountsService.java:60-62 | an account the batch does not name receives a zero delta, so the batch leaves it unchanged |
| `AccountRepository.ApplyBatchTotal` | src/main/java/com/db/asset/management/service/AccountsService.java:60-62 | applying a batch changes the total balance by exactly the sum of its deltas |
| `AccountRepository.UpdateAccounts` | src/main/java/com/db/asset/management/service/AccountsService.java:60-62 | all-or-nothing: reports success iff the repository commits and every id is known; on success the result is exactly the batch applied, on failure the store is unchanged; on success the total moves by the sum of the deltas |
| `Exceptions.NotFoundMessageInjective` | src/main/java/com/db/asset/management/service/AccountsService.java:30 | two not-found messages are equal iff they name the same account, so the message identifies the missing id |
| `Exceptions.NotEnoughFundsMessageInjective` | src/main/java/com/db/asset/management/service/AccountsService.java:58 | two insufficient-funds messages are equal iff they name the same account |
| `Exceptions.CheckDetailsIsNoNotFoundMessage` | src/main/java/com/db/asset/management/service/AccountsService.java:79-81 | the defensive null-check message differs from every lookup not-found message |
| `TransferProperties.ApplyTransferBatch` | src/main/java/com/db/asset/management/service/AccountsService.java:60-62 | for two distinct known accounts, the batch applied moves exactly the amount from source to destination |
| `TransferProperties.TransferBatchDelta` | src/main/java/com/db/asset/management/service/AccountsService.java:61-62 | under the transfer batch the source receives minus the amount, the destination plus the amount, and every other account nothing |
| `TransferProperties.TransferAmountMatchesReference` | src/main/java/com/db/asset/management/service/AccountsService.java:46-73 | on every input the service's outcome equals the reference: unknown source, unknown destination, self-transfer, insufficient funds, failed update, transfer, in that order of precedence |
| `TransferProperties.SourceResolvedFirst` | src/main/java/com/db/asset/management/service/AccountsService.java:49-50 | an unknown source fails with the source's id whether or not the destination exists, with no update and no change |
| `TransferProperties.DestinationResolvedSecond` | src/main/java/com/db/asset/management/service/AccountsService.java:49-50 | a known source with an unknown destination fails with the destination's id, with no update |
| `TransferProperties.SelfTransferRejected` | src/main/java/com/db/asset/management/service/AccountsService.java:53-57 | a known account sending to itself fails with TransferBetweenSameAccount for any amount, before the funds check, with no update |
| `TransferProperties.DefensiveCheckUnreachable` | src/main/java/com/db/asset/management/service/AccountsService.java:79-81 | the "Please check account details." error never comes out of a transfer |
| `TransferProperties.NotFoundNamesMissingAccount` | src/main/java/com/db/asset/management/service/AccountsService.java:49-50 | a transfer fails with the not-found error for an id iff that id is the source and unknown, or the source is known and the id is the unknown destination |
| `TransferProperties.InsufficientFundsRejected` | src/main/java/com/db/asset/management/service/AccountsService.java:57-58 | when balance minus amount is negative the transfer fails with NotEnoughFunds naming the source, with no update and no change |
| `TransferProperties.WholeBalanceMayMove` | src/main/java/com/db/asset/management/service/AccountsService.java:88-90 | moving exactly the source's balance succeeds and leaves the source at zero |
| `TransferProperties.SuccessfulTransfer` | src/main/java/com/db/asset/management/service/AccountsService.java:57-69 | with enough funds and a committing repository: success status, the exact two-entry batch, source down and destination up by exactly the amount, other accounts unchanged, total conserved |
| `TransferProperties.TransferredOutcome` | src/main/java/com/db/asset/management/service/AccountsService.java:57-69 | a transfer between two distinct known accounts with enough funds, committed by the repository, returns the success text, issues the exact two-entry batch and leaves the store with the amount moved from source to destination |
| `TransferProperties.FailedUpdateReturnsStatus` | src/main/java/com/db/asset/management/service/AccountsService.java:60-72 | when the repository does not commit, the retry status is returned rather than thrown, the batch was issued, and the store is unchanged |
| `TransferProperties.DebitNeverNegative` | src/main/java/com/db/asset/management/service/AccountsService.java:57-62 | after a successful transfer the source's balance is not negative |
| `TransferProperties.CreditNeverLowers` | src/main/java/com/db/asset/management/service/AccountsService.java:60-62 | for a non-negative amount, a successful transfer does not lower the destination |
| `TransferProperties.PreservesNonNegative` | src/main/java/com/db/asset/management/service/AccountsService.java:57-62 | for a non-negative amount, a store with no negative balance still has none afterwards |
| `TransferProperties.NegativeAmountCanOverdrawDestination` | src/main/java/com/db/asset/management/service/AccountsService.java:51-62 | with no positivity check, transferring -10 between two empty accounts succeeds and drives the destination to -10 |
| `TransferProperties.ExampleZeroBalance` | src/test/java/com/db/asset/management/service/TestAccountsService.java:65-77 | a zero-balance source sending 100 fails with the insufficient-funds error naming the source, with no update and no change |
| `TransferProperties.ExampleExactDecimals` | src/main/java/com/db/asset/management/service/AccountsService.java:57-69 | sending 200.99 from 201.99 to 0 with a committing repository succeeds and leaves exactly 1.00 and 200.99 (the scenario of the test at TestAccountsService.java:79-90, which itself mocks the repository and checks only the returned string) |
| `TransferProperties.OppositeTransferUndoes` | src/main/java/com/db/asset/management/service/AccountsService.java:57-62 | a successful transfer followed by the same amount sent back succeeds and restores the store, when the destination did not start negative |
| `TransferProperties.MovedBack` | src/main/java/com/db/asset/management/service/AccountsService.java:60-62 | debiting and crediting an amount and then the reverse leaves every balance as it was |
| `TransferProperties.ExampleOppositeTransfers` | src/main/java/com/db/asset/management/service/AccountsService.java:46-73 | A to B of 50 followed by B to A of 50, from 100 each, both succeed and restore the original store |

## Left out

- The nested `synchronized` blocks on the account-id strings (AccountsService.java:55-56) and any lock-order or deadlock reasoning: the model is sequential, and the whole call, lookups included, is one atomic step on one store value.
- Stale reads: the funds check uses the source account as read by the first lookup (AccountsService.java:49, 57), not a fresh read after the locks are taken. Because the model runs the lookups and the update on the same store, a balance change by another call between :49 and :55 is not modelled, and this snapshot behaviour cannot be observed. DebitNeverNegative and PreservesNonNegative hold only for a call that runs alone: with a repository that hands out copies, two concurrent debits of one account could each pass the check on the same snapshot and together overdraw it.
- `createAccount` (AccountsService.java:23-25): a one-line delegation to the repository, whose duplicate-id detection is not part of this model.
- The repository's implementation and how it makes the batch atomic: it is an assumed contract (all deltas or none, plus a success flag given as the parameter `storeOk`). How it handles a batch naming an unknown id is unknown; the model reports such a batch as not applied. A transfer never issues one.
- AccountRepository.GetAccount: assumes the repository returns the account whose id is the lookup key. The service uses the returned objects' ids, not the request ids, in `validate` (AccountsService.java:83), the funds message (:58) and the batch (:61-62); the model identifies the two because the repository's implementation is not part of this model.
- Spring wiring, the commented-out notification calls (AccountsService.java:66-68) and the Mockito test harness.
- `BigDecimal` scale and precision: amounts are exact reals, so the scale of a value is not represented.
- `null` transfer requests, ids or amounts: Dafny values are never null.
- CreditNeverLowers: requires a non-negative amount, which the code does not check; without it the destination can go down (see NegativeAmountCanOverdrawDestination).
- PreservesNonNegative: requires a non-negative amount for the same reason.
