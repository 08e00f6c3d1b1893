/**
 * The rows the server keeps: reward-ledger entries, withdrawals and bank accounts, and the
 * aggregates over the ledger that both services compute. Every amount is in integer cents
 * (the store's decimals have two places); timestamps are integers.
 */
module Ledger {
  import opened Wrappers

  datatype TransactionType = CASHBACK | REFERRAL_BONUS | WITHDRAWAL | INCOME

  /** The types summed as credits: CASHBACK, REFERRAL_BONUS and INCOME. */
  predicate IsCredit(t: TransactionType) {
    t == CASHBACK || t == REFERRAL_BONUS || t == INCOME
  }

  function TypeName(t: TransactionType): string {
    match t
    case CASHBACK => "CASHBACK"
    case REFERRAL_BONUS => "REFERRAL_BONUS"
    case WITHDRAWAL => "WITHDRAWAL"
    case INCOME => "INCOME"
  }

  /** A ledger entry. A withdrawal's entry links back to it through `withdrawalId`. */
  datatype RewardTransaction = RewardTransaction(
    id: string,
    userId: string,
    kind: TransactionType,
    amount: int,
    description: string,
    withdrawalId: Option<string>,
    createdAt: int)

  datatype WithdrawalStatus = COMPLETED | FAILED

  function StatusName(s: WithdrawalStatus): string {
    match s
    case COMPLETED => "COMPLETED"
    case FAILED => "FAILED"
  }

  datatype Withdrawal = Withdrawal(
    id: string,
    userId: string,
    amount: int,
    bankAccountId: string,
    status: WithdrawalStatus,
    createdAt: int)

  datatype BankAccount = BankAccount(
    id: string,
    userId: string,
    accountNumber: Option<string>,
    lastFourDigits: Option<string>,
    accountType: Option<string>,
    isActive: bool,
    createdAt: int)

  /**
   * Sum of the user's credit entries (the first aggregate). With no matching row the sum is
   * zero, as the `?? 0` fallback for a null aggregate gives.
   */
  function CreditSum(ledger: seq<RewardTransaction>, userId: string): (sum: int)
    ensures (forall i :: 0 <= i < |ledger| ==> ledger[i].userId != userId || !IsCredit(ledger[i].kind)) ==> sum == 0
  {
    if ledger == [] then 0
    else
      var e := ledger[|ledger| - 1];
      CreditSum(ledger[..|ledger| - 1], userId) + (if e.userId == userId && IsCredit(e.kind) then e.amount else 0)
  }

  /**
   * Sum of the user's WITHDRAWAL entries as stored, i.e. with their sign (the second aggregate).
   * With no matching row it is zero; with negative withdrawal entries it is never positive.
   */
  function RawWithdrawalSum(ledger: seq<RewardTransaction>, userId: string): (sum: int)
    ensures (forall i :: 0 <= i < |ledger| ==> ledger[i].userId != userId || ledger[i].kind != WITHDRAWAL) ==> sum == 0
    ensures WithdrawalEntriesNegative(ledger) ==> sum <= 0
  {
    if ledger == [] then 0
    else
      var e := ledger[|ledger| - 1];
      RawWithdrawalSum(ledger[..|ledger| - 1], userId) + (if e.userId == userId && e.kind == WITHDRAWAL then e.amount else 0)
  }

  /**
   * The balance as the services compute it: credits minus the raw WITHDRAWAL sum. Since the
   * withdrawal entries are stored negative, it never falls below the credits.
   */
  function CodeBalance(ledger: seq<RewardTransaction>, userId: string): (balance: int)
    ensures WithdrawalEntriesNegative(ledger) ==> balance >= CreditSum(ledger, userId)
  {
    CreditSum(ledger, userId) - RawWithdrawalSum(ledger, userId)
  }

  /**
   * The balance the unit test expects: credits plus the signed WITHDRAWAL sum. Withdrawals can
   * only lower it below the credits.
   */
  function ExpectedBalance(ledger: seq<RewardTransaction>, userId: string): (balance: int)
    ensures WithdrawalEntriesNegative(ledger) ==> balance <= CreditSum(ledger, userId)
  {
    CreditSum(ledger, userId) + RawWithdrawalSum(ledger, userId)
  }

  /** Sum of the amounts of the user's COMPLETED withdrawals. */
  function CompletedSum(withdrawals: seq<Withdrawal>, userId: string): int {
    if withdrawals == [] then 0
    else
      var w := withdrawals[|withdrawals| - 1];
      CompletedSum(withdrawals[..|withdrawals| - 1], userId) + (if w.userId == userId && w.status == COMPLETED then w.amount else 0)
  }

  predicate HasWithdrawalEntry(ledger: seq<RewardTransaction>, userId: string) {
    exists i :: 0 <= i < |ledger| && ledger[i].userId == userId && ledger[i].kind == WITHDRAWAL
  }

  /** Every WITHDRAWAL entry is stored negative, as the processor writes them. */
  predicate WithdrawalEntriesNegative(ledger: seq<RewardTransaction>) {
    forall i :: 0 <= i < |ledger| && ledger[i].kind == WITHDRAWAL ==> ledger[i].amount < 0
  }

  /** Both aggregates distribute over concatenation: the ledger's split into parts does not matter. */
  lemma {:induction false} SumsAdditive(a: seq<RewardTransaction>, b: seq<RewardTransaction>, userId: string)
    ensures CreditSum(a + b, userId) == CreditSum(a, userId) + CreditSum(b, userId)
    ensures RawWithdrawalSum(a + b, userId) == RawWithdrawalSum(a, userId) + RawWithdrawalSum(b, userId)
  {
    if b != [] {
      assert (a + b)[..|a + b| - 1] == a + b[..|b| - 1];
      assert (a + b)[|a + b| - 1] == b[|b| - 1];
      SumsAdditive(a, b[..|b| - 1], userId);
    } else {
      assert a + b == a;
    }
  }

  /** A ledger holding no entry of the user sums to zero for that user. */
  lemma {:induction false} SumsCountOnlyTheUser(ledger: seq<RewardTransaction>, userId: string)
    requires forall i :: 0 <= i < |ledger| ==> ledger[i].userId != userId
    ensures CreditSum(ledger, userId) == 0 && RawWithdrawalSum(ledger, userId) == 0
  {
    if ledger != [] {
      SumsCountOnlyTheUser(ledger[..|ledger| - 1], userId);
    }
  }

  /** With negative WITHDRAWAL entries, the raw sum is zero without such entries and negative with one. */
  lemma {:induction false} RawWithdrawalSumSign(ledger: seq<RewardTransaction>, userId: string)
    requires WithdrawalEntriesNegative(ledger)
    ensures RawWithdrawalSum(ledger, userId) <= 0
    ensures RawWithdrawalSum(ledger, userId) == 0 <==> !HasWithdrawalEntry(ledger, userId)
  {
    if ledger != [] {
      var init := ledger[..|ledger| - 1];
      var e := ledger[|ledger| - 1];
      RawWithdrawalSumSign(init, userId);
      if HasWithdrawalEntry(init, userId) {
        var i :| 0 <= i < |init| && init[i].userId == userId && init[i].kind == WITHDRAWAL;
        assert ledger[i] == init[i];
      }
      if HasWithdrawalEntry(ledger, userId) && !(e.userId == userId && e.kind == WITHDRAWAL) {
        var i :| 0 <= i < |ledger| && ledger[i].userId == userId && ledger[i].kind == WITHDRAWAL;
        assert init[i] == ledger[i];
      }
      assert e.kind == WITHDRAWAL ==> ledger[|ledger| - 1].amount < 0;
    }
  }

  /**
   * The two balance formulas agree exactly when the user has no WITHDRAWAL entry; otherwise
   * the code's balance is the larger one.
   */
  lemma BalancesAgreeIffNoWithdrawals(ledger: seq<RewardTransaction>, userId: string)
    requires WithdrawalEntriesNegative(ledger)
    ensures CodeBalance(ledger, userId) == ExpectedBalance(ledger, userId) <==> !HasWithdrawalEntry(ledger, userId)
    ensures CodeBalance(ledger, userId) >= ExpectedBalance(ledger, userId)
  {
    RawWithdrawalSumSign(ledger, userId);
  }
}
