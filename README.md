# Rewards ledger, withdrawals and client utilities: a verified model

This project models the core of a small rewards application.

On the server:
- the reward ledger (credits, WITHDRAWAL entries and the balance derived from them);
- the withdrawal processor, which validates a request and then writes a COMPLETED withdrawal
  and its negative ledger entry as one atomic step;
- cursor paging of the ledger history, newest first;
- manual INCOME credits;
- the bank-account listing with masked numbers;
- the Problem Details bodies (RFC 7807, "Problem Details for HTTP APIs") the server throws,
  and the global exception filter that writes them;
- the identity guard that resolves the caller from the `x-user-id` header.

On the client:
- the runtime validators of API responses;
- grouping of transactions by month;
- signed-amount formatting;
- the redaction of log contexts.

Conventions:
- Server amounts are integer cents. The store's decimals have two places, so 120.50 is `12050`.
- Client numbers are `real`.
- The store is the class `Store.Database`, holding three sequences (ledger entries, withdrawals,
  bank accounts). The services append to these sequences.
- Identifiers and timestamps that the store generates are given to the model as parameters
  (`Store.Generated`). Whatever the calendar and `Intl` compute is given as function parameters
  (`Grouping.Calendar`, `formatCurrency`, `dateParses`).

The balance computation contains a sign defect, which the model keeps as written:
- `Ledger.CodeBalance` is credits minus the raw sum of WITHDRAWAL entries. This is what both
  services compute. Because withdrawal entries are stored negative, each withdrawal raises it.
- `Ledger.ExpectedBalance` is credits plus that sum. This is what the unit test expects.
- `Withdrawals.Process` takes the formula as a parameter (`BalanceRule`).
- The database method uses the formula as written. The safety lemmas compare the two formulas.

## Model

| member | source | states |
|---|---|---|
| Ledger.CreditSum | server/src/rewards/rewards.service.ts:16-30 | the sum of the user's CASHBACK, REFERRAL_BONUS and INCOME amounts; with no such row it is 0, as the fallback for a null aggregate gives |
| Ledger.RawWithdrawalSum | server/src/rewards/rewards.service.ts:25-31 | the sum of the user's WITHDRAWAL amounts with their stored sign; 0 with no such row, and never positive when withdrawal entries are stored negative |
| Ledger.CodeBalance | server/src/rewards/rewards.service.ts:30-33 | the balance as written, credits minus the raw WITHDRAWAL sum; with negative withdrawal entries it never falls below the credits, so a withdrawal never lowers it |
| Ledger.ExpectedBalance | server/test/unit/rewards.service.spec.ts:17-26 | the balance the unit test expects, credits plus the signed WITHDRAWAL sum; withdrawals can only take it below the credits |
| Ledger.SumsAdditive | server/src/rewards/rewards.service.ts:16-28 | both aggregates (credit sum, WITHDRAWAL sum) distribute over any split of the ledger |
| Ledger.SumsCountOnlyTheUser | server/src/rewards/rewards.service.ts:16-28 | entries of other users contribute nothing to a user's aggregates |
| Ledger.RawWithdrawalSumSign | server/src/withdrawals/withdrawals.service.ts:82 | with WITHDRAWAL entries stored negative, the raw WITHDRAWAL sum is ≤ 0, and it is 0 exactly when the user has no such entry |
| Ledger.BalancesAgreeIffNoWithdrawals | server/src/rewards/rewards.service.ts:25-33 | the balance as written and the balance the test expects are equal exactly when the user has no WITHDRAWAL entry; otherwise the code's is larger |
| Rewards.CalculateBalance | server/src/rewards/rewards.service.ts:14-38 | the currency is always USD and the balance is credits minus the raw WITHDRAWAL sum |
| Rewards.NoEntriesZeroBalance | server/src/rewards/rewards.service.ts:30-37 | a user without entries gets balance 0 in USD |
| Rewards.BalanceIgnoresOtherUsers | server/src/rewards/rewards.service.ts:16-28 | other users' rows, wherever they sit, do not change a user's balance |
| Rewards.BalanceAfterEntry | server/src/rewards/rewards.service.ts:25-33 | one more entry moves the balance by +amount for a credit and by −amount for a WITHDRAWAL, so a negative withdrawal entry raises it |
| Rewards.UnitTestBalance | server/test/unit/rewards.service.spec.ts:17-26 | on the test's ledger (300.00 credit, −120.50 withdrawal) the expected balance is 179.50, while the code computes 420.50 |
| Rewards.ExpectedBalanceIsAvailable | server/src/rewards/rewards.service.ts:33 | in a consistent store the expected formula is credits minus COMPLETED withdrawals, while the formula as written is credits plus them |
| Rewards.NewerOrSameIsTotalPreorder | server/src/rewards/rewards.service.ts:44-47 | the `(createdAt desc, id desc)` order is total and transitive |
| Rewards.UserEntries | server/src/rewards/rewards.service.ts:43 | the rows selected are exactly the user's entries |
| Rewards.OrderedHistory | server/src/rewards/rewards.service.ts:42-47 | the user's rows in the store's order: sorted by (createdAt desc, id desc) and a permutation of the user's rows |
| Rewards.OrderedHistoryProperties | server/src/rewards/rewards.service.ts:42-56 | the ordered history holds exactly the user's entries, is sorted by `(createdAt desc, id desc)`, is a permutation of them, and has no repeated id when the table has none |
| Rewards.IndexOf | server/src/rewards/rewards.service.ts:51-54 | the position found is the first entry with the cursor id, or the end when there is none |
| Rewards.CursorInHistory | server/src/rewards/rewards.service.ts:51-54 | a cursor naming one of the user's entries starts the page within the history |
| Rewards.PageOf | server/src/rewards/rewards.service.ts:48-75 | from a start position: at most `take` DTOs, which are the next rows in order; `count` is their number; `hasMore` holds exactly when more than `take` rows remain; `nextCursor` is the last returned id when it does and null otherwise |
| Rewards.GetTransactionHistory | server/src/rewards/rewards.service.ts:40-77 | a page holds at most min(limit, 100) transactions and count is their number; nextCursor is present exactly when hasMore holds, and a page with more is never empty |
| Rewards.PageContents | server/src/rewards/rewards.service.ts:40-77 | a page is the next `min(limit, 100)` entries of the ordered history after the cursor, or all that remain when fewer do |
| Rewards.PageHasMore | server/src/rewards/rewards.service.ts:58-69 | `hasMore` holds exactly when more than `take` entries remain after the start; then `nextCursor` is the page's last id, else null |
| Rewards.PageStrictlyAfterCursor | server/src/rewards/rewards.service.ts:51-54 | every entry of a cursor page is strictly older than the cursor row in `(createdAt, id)` order, so the cursor row is never repeated |
| Rewards.NextCursorIsPageEnd | server/src/rewards/rewards.service.ts:69 | when more remain, `nextCursor` is the id of the history entry that ends the page |
| Rewards.NextCursorAdvances | server/src/rewards/rewards.service.ts:51-69 | following `nextCursor` starts the next page right after the current one |
| Rewards.PageCursorAdvances | server/src/rewards/rewards.service.ts:51-69 | on a history with distinct non-empty ids, the cursor a page returns starts the next page exactly `take` rows later |
| Rewards.PagesFromIsSuffix | server/src/rewards/rewards.service.ts:40-77 | repeatedly following `nextCursor` while `hasMore` yields the rest of the history after the cursor, each entry once, in order |
| Rewards.AllPagesFollowsCursor | server/src/rewards/rewards.service.ts:58-75 | the walk's first page is the service's answer, and the walk continues exactly from the `nextCursor` it returned |
| Rewards.AllPagesIsWholeHistory | server/src/rewards/rewards.service.ts:40-77 | paging from a cursor yields the whole remaining history once, in order |
| Rewards.FirstPageOnwardIsWholeHistory | server/src/rewards/rewards.service.ts:40-77 | paging from no cursor yields the user's whole ordered history |
| Rewards.Income | server/src/rewards/rewards.service.ts:79-106 | success exactly when the amount is at least 0.01; a failure leaves the store as it was; a success appends one INCOME entry of the amount and leaves withdrawals and bank accounts alone |
| Rewards.IncomeOutcome | server/src/rewards/rewards.service.ts:79-106 | amounts below 0.01 fail with "Minimum amount not met" and write nothing; any other amount appends exactly one INCOME entry of that amount for the user and leaves withdrawals and bank accounts alone |
| Rewards.IncomeDescriptionMarked | server/src/rewards/rewards.service.ts:86 | the description is the given text (or 'Manual test top-up') followed by ' [MANUAL_TEST_TOPUP]' |
| Rewards.IncomeRaisesBalance | server/src/rewards/rewards.service.ts:88-95 | a credit raises that user's balance by the amount and no one else's |
| Rewards.IncomeKeepsConsistent | server/src/rewards/rewards.service.ts:88-95 | with a fresh id, a credit keeps the store consistent |
| Rewards.CreateIncomeTransaction | server/src/rewards/rewards.service.ts:79-106 | the method's outcome and new store are those of `Income`; on success only the ledger grows, by the one INCOME entry; consistency is preserved |
| Store.FindBankAccount | server/src/withdrawals/withdrawals.service.ts:28-36 | the lookup finds a row with that id exactly when one exists |
| Store.FindWithdrawal | server/src/withdrawals/withdrawals.service.ts:110 | the lookup finds a row with that id exactly when one exists |
| Store.FindAppendedWithdrawal | server/src/withdrawals/withdrawals.service.ts:68-75 | a row appended under an unused id is what a later lookup of that id finds |
| Store.EmptyIsConsistent | server/src/withdrawals/withdrawals.service.ts:67-88 | the empty store satisfies the consistency invariant (distinct non-empty ids, negative WITHDRAWAL entries, entries cancelling COMPLETED withdrawals) |
| Store.Database.constructor | server/src/withdrawals/withdrawals.service.ts:14 | the database starts with the given tables |
| Withdrawals.CurrencyOrUsd | server/src/withdrawals/withdrawals.service.ts:103 | an absent or empty currency becomes USD, and any other is kept |
| Withdrawals.Process | server/src/withdrawals/withdrawals.service.ts:16-107 | a failure leaves all three tables as they were; a success means all four checks passed (minimum, account exists, account owned, balance covers the amount) and adds exactly one withdrawal and one ledger entry, with the bank accounts untouched |
| Withdrawals.ProcessSucceedsIffChecksPass | server/src/withdrawals/withdrawals.service.ts:16-107 | a request succeeds exactly when the amount is at least 1.00, the account exists and is the caller's, and the balance covers the amount |
| Withdrawals.ProcessFailureKinds | server/src/withdrawals/withdrawals.service.ts:19-65 | below the minimum is always MinimumAmountException, whatever the account; an unknown or foreign account is BankAccountNotFoundException; a balance below the amount is InsufficientFundsException(balance, amount) |
| Withdrawals.FailureWritesNothing | server/src/withdrawals/withdrawals.service.ts:19-66 | every failure leaves all three tables unchanged |
| Withdrawals.SuccessWritesTwoRows | server/src/withdrawals/withdrawals.service.ts:67-88 | success appends exactly one withdrawal and one ledger entry, keeps the earlier rows, and leaves the bank accounts alone |
| Withdrawals.SuccessRowContents | server/src/withdrawals/withdrawals.service.ts:67-88 | the new withdrawal is COMPLETED with the caller, account and amount; the new entry is a WITHDRAWAL of −amount linked to it and described "Withdrawal <id>" |
| Withdrawals.SuccessResponse | server/src/withdrawals/withdrawals.service.ts:98-106 | the response echoes id, userId, amount and account, has status 'completed', and has currency USD when none is given |
| Withdrawals.ExactBalanceAccepted | server/src/withdrawals/withdrawals.service.ts:62-65 | an amount equal to the balance is accepted |
| Withdrawals.AppendPairSums | server/src/withdrawals/withdrawals.service.ts:67-88 | the appended pair lowers the caller's raw WITHDRAWAL sum by the amount, raises their COMPLETED sum by it, and changes no other user's sums |
| Withdrawals.ProcessKeepsConsistent | server/src/withdrawals/withdrawals.service.ts:67-88 | with fresh ids, processing keeps the store consistent under either balance formula |
| Withdrawals.CreateWithdrawal | server/src/withdrawals/withdrawals.service.ts:16-107 | the method's result and new store are those of `Process` with the formula as written; a failure writes nothing; success appends exactly the two rows; consistency is preserved |
| Withdrawals.FindOne | server/src/withdrawals/withdrawals.service.ts:109-122 | an unknown id fails with NotFoundException('Withdrawal not found'); otherwise the stored row's fields are returned with currency USD and the status's enum name |
| Withdrawals.FindOneAfterCreate | server/src/withdrawals/withdrawals.service.ts:98-122 | looking up a new withdrawal returns the creation response, except that the status reads "COMPLETED" and the currency is USD |
| Safety.WithdrawKeepsNoOverdraft | server/src/withdrawals/withdrawals.service.ts:44-65 | a withdrawal checked against the expected balance keeps COMPLETED withdrawals within credits |
| Safety.TopUpKeepsNoOverdraft | server/src/rewards/rewards.service.ts:79-95 | a credit cannot create an overdraft |
| Safety.ExpectedGuardNeverOverdraws | server/src/withdrawals/withdrawals.service.ts:44-65 | with the expected formula, every run of withdrawals and credits keeps the store consistent and without overdraft |
| Safety.OverdraftStartIsSound | server/src/withdrawals/withdrawals.service.ts:44-60 | the example store is consistent, has no overdraft, and credits the user 100.00 |
| Safety.FirstFullWithdrawal | server/src/withdrawals/withdrawals.service.ts:62-88 | under either formula, withdrawing the full 100.00 succeeds and leaves a −100.00 entry |
| Safety.AsWrittenGuardOverdraws | server/src/withdrawals/withdrawals.service.ts:53-65 | with the formula as written, two successive full-balance withdrawals both succeed and pay out 200.00 against 100.00 of credits |
| Safety.ExpectedGuardRefusesSecond | server/src/withdrawals/withdrawals.service.ts:62-65 | with the expected formula, the second withdrawal fails with InsufficientFundsException(0, 100.00) and writes nothing |
| ProblemDetails.Build | server/src/common/exceptions/problem-details.ts:11-27 | the result has the five standard members plus the extension keys; every extension keeps its value and overrides a standard member of the same name; otherwise type is the base URI plus the type, and title, status, detail and instance are copied |
| ProblemDetails.BuildWithoutExtensions | server/src/common/exceptions/problem-details.ts:19-24 | without extensions the result has exactly the five standard members, with the given values |
| ProblemDetails.BuildTypeHasBase | server/src/common/exceptions/problem-details.ts:20 | the type member is 'https://api.rewards.com/problems/' followed by the given type |
| Exceptions.MinimumAmountException | server/src/common/exceptions/minimum-amount.exception.ts:5-19 | an HttpException with status 409 and an object body |
| Exceptions.MinimumAmountProblem | server/src/common/exceptions/minimum-amount.exception.ts:6-18 | type ends in 'minimum-amount-not-met', title 'Minimum Amount Not Met', status 409 in both the body and the exception, instance '/withdrawals' |
| Exceptions.MinimumAmountArguments | server/src/common/exceptions/minimum-amount.exception.ts:12-15 | the body carries minimumAmount and requestedAmount as given, and no other extension |
| Exceptions.MinimumAmountDetail | server/src/common/exceptions/minimum-amount.exception.ts:10 | the detail is the fixed prefix followed by the minimum with two decimals |
| Exceptions.MinimumAmountText | server/src/common/exceptions/minimum-amount.exception.ts:10 | the two-decimal text in the detail reads back as the minimum |
| Exceptions.MinimumOfOneDollarDetail | server/src/withdrawals/withdrawals.service.ts:19-22 | the service's minimum reads "Withdrawal amount must be at least $1.00" |
| Exceptions.InsufficientFundsException | server/src/common/exceptions/insufficient-funds.exception.ts:5-19 | an HttpException with status 409 and an object body |
| Exceptions.InsufficientFundsProblem | server/src/common/exceptions/insufficient-funds.exception.ts:6-18 | type ends in 'insufficient-funds', title 'Insufficient Funds', status 409 in both, the fixed detail, instance '/withdrawals' |
| Exceptions.InsufficientFundsArguments | server/src/common/exceptions/insufficient-funds.exception.ts:12-15 | the body carries currentBalance and requestedAmount as given, and no other extension |
| Exceptions.BankAccountNotFoundException | server/src/common/exceptions/bank-account-not-found.exception.ts:5-18 | an HttpException with status 404 and an object body |
| Exceptions.BankAccountNotFoundProblem | server/src/common/exceptions/bank-account-not-found.exception.ts:6-17 | type ends in 'bank-account-not-found', title 'Bank Account Not Found', status 404 in both, the fixed detail, instance '/withdrawals' |
| Exceptions.BankAccountNotFoundArguments | server/src/common/exceptions/bank-account-not-found.exception.ts:12-14 | the body carries the requested bankAccountId and no other extension |
| Strings.FormatCentsRoundTrip | server/src/common/exceptions/minimum-amount.exception.ts:10 | `toFixed(2)` of a cents value has the two-decimal shape and reads back to the same cents |
| HttpExceptionFilter.TypeFromStatus | server/src/common/filters/http-exception.filter.ts:63-73 | 'error' exactly for a status outside 400, 401, 403, 404, 409 and 500 |
| HttpExceptionFilter.TitleFromStatus | server/src/common/filters/http-exception.filter.ts:75-85 | 'Error' exactly for a status outside 400, 401, 403, 404, 409 and 500, and every title starts with a capital letter |
| HttpExceptionFilter.ProblemFor | server/src/common/filters/http-exception.filter.ts:18-55 | every body the filter selects has a type and a title; an unknown error has status 500; a converted HttpException carries its own status and the request URL as instance |
| HttpExceptionFilter.TitleMatchesType | server/src/common/filters/http-exception.filter.ts:63-85 | for every status, the title table's entry is the capitalised form of the type table's entry, defaults included |
| HttpExceptionFilter.UnknownErrorIsInternal | server/src/common/filters/http-exception.filter.ts:46-55 | anything not an HttpException becomes a 500 'internal-server-error' problem with the fixed detail at the request URL |
| HttpExceptionFilter.ProblemShapedPassesThrough | server/src/common/filters/http-exception.filter.ts:20-29 | a response object with both type and title is written unchanged |
| HttpExceptionFilter.OtherHttpExceptionConverted | server/src/common/filters/http-exception.filter.ts:30-44 | any other HttpException gets type and title from the status tables, its own status, the detail from the response (string, else truthy message, else 'An error occurred'), and the URL as instance |
| HttpExceptionFilter.WithdrawalProblemsWrittenWithTheirStatus | server/src/common/filters/http-exception.filter.ts:20-29 | the three withdrawal problems pass through, and the status written equals the exception's own status |
| HttpExceptionFilter.NotFoundMessageBecomesDetail | server/src/common/filters/http-exception.filter.ts:30-44 | the framework's not-found exception becomes a 'not-found' problem whose detail is its message |
| HttpExceptionFilter.ValidationMessagesBecomeDetail | server/src/common/filters/http-exception.filter.ts:30-44 | a 400 whose message is an array of constraint messages, even an empty one, gets that array as the detail of a 'validation-error' problem, since an array is truthy |
| HttpExceptionFilter.Catch | server/src/common/filters/http-exception.filter.ts:13-61 | the response gets the selected body, the body's status member as its status, and Content-Type application/problem+json |
| IdentityGuard.EffectiveUserId | server/src/common/guards/identity.guard.ts:45-46 | a non-empty header is used as it is; without one and without the fallback there is no id; an effective id is never empty |
| IdentityGuard.Decide | server/src/common/guards/identity.guard.ts:33-71 | an allowed request runs as a known user whose id is the effective id, and in production that id is the header's |
| IdentityGuard.ProductionNeedsHeader | server/src/common/guards/identity.guard.ts:33-42 | in production a missing or empty header is refused before any fallback is considered |
| IdentityGuard.AllowedExactly | server/src/common/guards/identity.guard.ts:18-77 | a request is let through exactly when it is not headerless in production and its effective id names a user; it then runs as the header's id, or else as the fallback id |
| IdentityGuard.RejectionReasons | server/src/common/guards/identity.guard.ts:44-71 | no effective id gives 'Missing x-user-id header'; an unknown one gives 'Invalid user identifier' |
| IdentityGuard.DefaultsFallBackToTestUser | server/src/common/guards/identity.guard.ts:23-30 | with nothing configured outside production, a headerless request runs as 'test-user-001' |
| IdentityGuard.FalseTextStillFallsBack | server/src/common/guards/identity.guard.ts:23-26 | the flag set to the text "false" does not disable the fallback |
| IdentityGuard.Request.constructor | server/src/common/guards/identity.guard.ts:19 | a request starts with its header and URL and no attached user |
| IdentityGuard.CanActivate | server/src/common/guards/identity.guard.ts:18-77 | an allowed request returns true with the user attached; a refused one returns the 401 rejection for its reason and attaches nothing |
| IdentityGuard.RejectionIsUnauthorized | server/src/common/guards/identity.guard.ts:34-41 | each rejection is an HTTP 401 whose body is an 'unauthorized' problem with status 401, the reason as detail and the URL as instance |
| BankAccounts.MaskAccountNumber | server/src/bank-accounts/bank-accounts.service.ts:11-15 | a non-empty stored last four is returned; with neither it is 'xxxx'; otherwise it is the account number's final min(4, length) characters |
| BankAccounts.MaskExamples | server/test/unit/bank-accounts.service.spec.ts:17-28 | '0000111122223333' masks to '3333', and a stored '4444' is kept |
| BankAccounts.ActiveAccountsOf | server/src/bank-accounts/bank-accounts.service.ts:20-21 | the rows selected are exactly the user's active accounts |
| BankAccounts.FindAllByUserId | server/src/bank-accounts/bank-accounts.service.ts:17-34 | one listed account per active account of the user, and count is the length of the list |
| BankAccounts.FindAllListsActiveRows | server/src/bank-accounts/bank-accounts.service.ts:17-34 | one listed account per active row of the user, each the masked DTO of such a row; count is the list's length |
| BankAccounts.FindAllNewestFirst | server/src/bank-accounts/bank-accounts.service.ts:22 | the listing is ordered by createdAt, newest first |
| BankAccounts.FindAllIsComplete | server/src/bank-accounts/bank-accounts.service.ts:20-31 | every active account of the user is listed |
| BankAccounts.ListedFields | server/src/bank-accounts/bank-accounts.service.ts:25-31 | a listed account keeps its row's id, type and active flag and carries the masked number |
| BankAccounts.NoAccountsEmptyListing | server/src/bank-accounts/bank-accounts.service.ts:33 | a user without active accounts gets an empty list and count 0 |
| Sorting.SortSorted | server/src/bank-accounts/bank-accounts.service.ts:22 | the ordering used for `orderBy` yields a sorted permutation of its input |
| TypeGuards.IsValidTransaction | client/src/features/rewards/utils/typeGuards.ts:13-26 | every accepted value is a plain object (not an array or null) whose type is not 'ATH' |
| TypeGuards.TransactionAcceptedIff | client/src/features/rewards/utils/typeGuards.ts:13-26 | a transaction-shaped object is accepted exactly when its id is non-empty, its type is one of the four ledger types, its amount is non-zero and its timestamp parses |
| TypeGuards.AthRejected | client/src/features/rewards/utils/typeGuards.ts:19 | type 'ATH' is rejected |
| TypeGuards.TransactionRejections | client/src/features/rewards/utils/typeGuards.ts:15-22 | an empty or non-string id, a zero or non-numeric amount, a non-string description, an array or null each fail |
| TypeGuards.ServerTransactionAccepted | client/src/features/rewards/utils/typeGuards.ts:13-26 | a transaction as the server sends it is accepted exactly when its id is non-empty, its amount is non-zero and its timestamp parses |
| TypeGuards.UpperFixedIffNoLowercase | client/src/features/rewards/utils/typeGuards.ts:40 | `s === s.toUpperCase()` holds exactly when s has no lower-case letter |
| TypeGuards.IsValidRewardsSummary | client/src/features/rewards/utils/typeGuards.ts:32-42 | every accepted value is a plain object whose currency is a string with no lower-case letter |
| TypeGuards.SummaryAcceptedIff | client/src/features/rewards/utils/typeGuards.ts:32-42 | a summary is accepted exactly when the balance is ≥ 0 and the currency has 3 characters, none lower-case ("US1" passes, "usd" fails) |
| TypeGuards.ServerSummaryAccepted | client/src/features/rewards/utils/typeGuards.ts:32-42 | the server's summary is accepted exactly when its computed balance is not negative |
| TypeGuards.IsValidPaginatedTransactions | client/src/features/rewards/utils/typeGuards.ts:48-69 | every accepted value is a plain object whose transactions array holds only valid transactions |
| TypeGuards.PageAcceptedIff | client/src/features/rewards/utils/typeGuards.ts:48-69 | a page is accepted exactly when a page with more has a cursor that is not null, the last page has a null cursor (an absent one fails), and every transaction is valid |
| TypeGuards.AcceptedPageShape | client/src/features/rewards/utils/typeGuards.ts:48-69 | what every accepted page satisfies: an array of valid transactions, a boolean hasMore, and a cursor consistent with it |
| TypeGuards.MissingCursorWithMoreAccepted | client/src/features/rewards/utils/typeGuards.ts:59-61 | a page claiming more with no nextCursor property, or with a number as cursor, is accepted |
| TypeGuards.StrictPageAcceptedIff | client/src/features/rewards/utils/typeGuards.ts:58-65 | the corrected check accepts exactly the pages with a string cursor when there are more, a null cursor on the last page, and all transactions valid |
| TypeGuards.ServerPageAccepted | client/src/features/rewards/utils/typeGuards.ts:48-69 | a server page passes even the corrected check exactly when each of its transactions has a non-empty id, a non-zero amount and a parsable timestamp |
| Grouping.GroupByKey | client/src/features/rewards/utils/groupTransactionsByMonth.ts:26-38 | the map holds one list per key of the input, each being that key's transactions in input order; keys are in first-seen order |
| Grouping.InsertIntoPrefix | client/src/features/rewards/utils/groupTransactionsByMonth.ts:55-64 | one insertion pass leaves the prefix newest first and permutes the array |
| Grouping.SortGroups | client/src/features/rewards/utils/groupTransactionsByMonth.ts:55-64 | the in-place sort leaves the groups ordered by year descending, then first timestamp descending, as a permutation |
| Grouping.GroupTransactionsByMonth | client/src/features/rewards/utils/groupTransactionsByMonth.ts:18-67 | empty input gives no groups; the result is a permutation of the per-key groups, newest first, with distinct (year, month) keys, holding as many transactions as the input |
| Grouping.Collect | client/src/features/rewards/utils/groupTransactionsByMonth.ts:26-51 | there are no groups exactly when there are no transactions, and each group holds exactly the input's transactions of its own (year, month), in input order |
| Grouping.CollectKeysDistinct | client/src/features/rewards/utils/groupTransactionsByMonth.ts:26-36 | no two groups share a (year, month) key |
| Grouping.CollectTotal | client/src/features/rewards/utils/groupTransactionsByMonth.ts:28-38 | the groups hold exactly as many transactions as the input |
| Grouping.GroupsHoldTheirMonth | client/src/features/rewards/utils/groupTransactionsByMonth.ts:29-51 | every grouped transaction comes from the input and has its group's year and month name |
| Grouping.EveryTransactionGrouped | client/src/features/rewards/utils/groupTransactionsByMonth.ts:28-38 | every input transaction is in some group |
| Grouping.ExactlyOneGroup | client/src/features/rewards/utils/groupTransactionsByMonth.ts:28-52 | each input transaction is in exactly one group, the one for its year and month |
| Grouping.GroupsKeepInputOrder | client/src/features/rewards/utils/groupTransactionsByMonth.ts:37-50 | from a newest-first input, each group is newest first |
| Grouping.MembersKeepOrder | client/src/features/rewards/utils/groupTransactionsByMonth.ts:37 | pushing keeps the input order within a key |
| SignedAmount.FormatSignedAmount | client/src/features/rewards/utils/formatSignedAmount.ts:16-24 | the first character is '+' exactly when amount ≥ 0, else '-', and the rest is the currency formatting of the magnitude, with defaults USD and en-US |
| SignedAmount.GetAmountType | client/src/features/rewards/utils/formatSignedAmount.ts:32-34 | 'incoming' exactly when amount ≥ 0 |
| SignedAmount.SignMatchesAmountType | client/src/features/rewards/utils/formatSignedAmount.ts:22-33 | the class is incoming exactly when the sign is '+'; zero is '+' and incoming |
| SignedAmount.NegationFlipsOnlyTheSign | client/src/features/rewards/utils/formatSignedAmount.ts:21-23 | an amount and its negation differ only in the sign |
| SignedAmount.ListExamples | client/tests/features/rewards/TransactionList.test.tsx:77-95 | with a formatter giving "$25.50" and "$10.00", 25.5 shows "+$25.50" and −10 shows "-$10.00" |
| Logger.Sensitive | client/src/features/rewards/utils/logger.ts:27-39 | a key shorter than six characters, the length of the shortest term, is never sensitive |
| Logger.Sanitized | client/src/features/rewards/utils/logger.ts:22-53 | the result has exactly the input's keys, and every sensitive key holds '[REDACTED]' |
| Logger.Entries | client/src/features/rewards/utils/logger.ts:25 | `Object.entries` of an object is its properties; of an array, its items keyed by decimal index |
| Logger.SanitizeContext | client/src/features/rewards/utils/logger.ts:22-53 | the loop builds exactly the sanitized context |
| Logger.SanitizedKeys | client/src/features/rewards/utils/logger.ts:25-50 | the result has exactly the input's keys |
| Logger.EntryOutcomes | client/src/features/rewards/utils/logger.ts:39-49 | a sensitive key maps to '[REDACTED]' whatever its value; otherwise an object is sanitized recursively and anything else is kept |
| Logger.SensitiveExamples | client/src/features/rewards/utils/logger.ts:27-39 | matching ignores case and finds terms inside keys: 'totalAmount', 'X-User-Id' and 'userId' are sensitive, 'endpoint' is not |
| Logger.NotSensitiveByTriples | client/src/features/rewards/utils/logger.ts:39 | a key containing none of the terms' first three characters in a row is not sensitive |
| Logger.SanitizedIsClean | client/src/features/rewards/utils/logger.ts:22-53 | no sensitive key at any depth of the result holds anything but '[REDACTED]' |
| Logger.SanitizeIdempotent | client/src/features/rewards/utils/logger.ts:22-53 | sanitizing a sanitized context changes nothing |
| Logger.SanitizeExample | client/src/features/rewards/utils/logger.ts:22-53 | a worked context: a sensitive top-level key and a nested userId are redacted, a nested page is kept, and an array becomes an index-keyed object |
| Logger.LogEntry | client/src/features/rewards/utils/logger.ts:59-69 | the entry has the four base fields' keys, and no sensitive key in it holds anything but '[REDACTED]' |
| Logger.BaseKeysNotSensitive | client/src/features/rewards/utils/logger.ts:63-67 | none of timestamp, level, feature and message contains a sensitive term, so the base fields are never redacted |
| Logger.EntryWithoutContext | client/src/features/rewards/utils/logger.ts:59-69 | without a context the entry is exactly timestamp, level, feature 'rewards' and message |
| Logger.EntryFields | client/src/features/rewards/utils/logger.ts:63-69 | the entry has the base fields and the context's keys; a context key named like a base field overrides it |
| Logger.EntryIsCleanWithContext | client/src/features/rewards/utils/logger.ts:59-81 | no sensitive value reaches the entry, whatever the context |

## Left out

- The 5-second timeout, the `FOR UPDATE` row lock and Serializable isolation: `create` is one atomic step, and interleavings are not modelled.
- Binary floating point: `Number(...)` and `toFixed(2)` on the server are integer cents. Client amounts are `real`, without NaN or the infinities.
- `Intl`-based formatting (`formatCurrency`, `getMonthName`), `Date.parse`, `new Date().getFullYear()` and `toISOString()` are function parameters.
- The store's uuid and clock defaults are parameters. The preconditions that these ids are unused stand in for the uuid guarantee.
- Rewards.GetTransactionHistory: requires `limit ≥ 1`, so that `take = min(limit, 100)` is at least 1. With `take = 0` over a non-empty history, the source indexes before the first element.
- Rewards.GetTransactionHistory: the default `limit = 20` is not modelled; callers always pass a limit.
- Rewards.GetTransactionHistory: a cursor naming no entry of the user is a precondition violation, not modelled behaviour. The store's handling of an unknown cursor is not part of this model.
- The transactions controller drops the cursor. The model follows the service, not the controller.
- Ids are ordered by character code. The store's collation is not modelled.
- Ties in `createdAt` among bank accounts: the listing is shown to be ordered, but the order among ties is not fixed.
- Grouping.SortGroups: stability, i.e. the order among groups the comparator calls equal, is not stated.
- The identity guard's configuration values are raw environment strings. Nothing in the source parses them, so "false" is a truthy string.
- A header sent as an array of values is not modelled.
- The user lookup is membership in a set of ids.
- Grouping: the `${year}-${month}` key and its `split('-')` are modelled as the (year, month) pair.
- The month-name table itself (formatMonthHeader.ts) is not part of this model.
- Case mapping in `toLowerCase` and `toUpperCase` covers ASCII letters only.
- ProblemDetails: a member value is a string, a number, a boolean, null or an array; an object nested as a member value is not modelled.
- TypeGuards: an array's own properties (such as `length`) are not readable through `Get`.
- TypeGuards.IsValidRewardsSummary: follows the code. Any three characters with no lower-case letter pass (for example "US1"), not only the three-letter alphabetic ISO 4217 codes.
- Logger: `sanitizeContext` sees plain objects and arrays only. Class instances, functions and symbols are not modelled.
- The log wrappers (`logAPIFailure` and the others), console output, the `window` handlers and `PerformanceMarker` are I/O or wall-clock timing.
- React components, hooks and `fetchWithTimeout` are UI state and network I/O.

## Findings

| source | as written | input that shows it | evidently intended | confidence | as-written member | corrected member |
|---|---|---|---|---|---|---|
| server/src/withdrawals/withdrawals.service.ts:53-65 | the funds check uses credits minus the raw WITHDRAWAL sum, and withdrawal entries are stored negative, so every withdrawal raises the balance the check sees | a user with 100.00 of cashback withdraws 100.00 twice: both succeed and 200.00 is paid out | credits plus the signed WITHDRAWAL sum, i.e. credits minus completed withdrawals | not executed | Safety.AsWrittenGuardOverdraws | Safety.ExpectedGuardNeverOverdraws |
| server/src/rewards/rewards.service.ts:33 | `calculateBalance` reports credits minus the raw WITHDRAWAL sum | credits 300.00 and one WITHDRAWAL entry of −120.50 give 420.50 | 179.50, as the unit test expects | not executed | Rewards.UnitTestBalance | Rewards.ExpectedBalanceIsAvailable |
| client/src/features/rewards/utils/typeGuards.ts:59-61 | a page with more is rejected only when `nextCursor === null` | `{transactions: [], hasMore: true}` with no cursor, or with cursor 7, is accepted | a page with more must carry a cursor string | not executed | TypeGuards.MissingCursorWithMoreAccepted | TypeGuards.StrictPageAcceptedIff |
