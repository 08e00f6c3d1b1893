/**
 * `WithdrawalsService`: validates a withdrawal against the caller's bank account and ledger
 * balance, then writes a COMPLETED withdrawal and its negative WITHDRAWAL ledger entry as one
 * atomic step; and looks a withdrawal up by id.
 */
module Withdrawals {
  import opened Wrappers
  import opened ProblemDetails
  import opened Exceptions
  import opened Ledger
  import opened Store

  /** The minimum withdrawal, 1.00 in cents. */
  const MinAmount: int := 100

  /** The request body; `currency` is optional. */
  datatype CreateWithdrawalDto = CreateWithdrawalDto(amount: int, bankAccountId: string, currency: Option<string>)

  datatype WithdrawalResponse = WithdrawalResponse(
    id: string,
    userId: string,
    amount: int,
    bankAccountId: string,
    currency: string,
    status: string,
    createdAt: int)

  /**
   * Which balance the funds check compares with: the formula the service is written with, or
   * the one its unit test expects.
   */
  datatype BalanceRule = AsWritten | AsExpected

  function BalanceUnder(rule: BalanceRule, ledger: seq<RewardTransaction>, userId: string): int {
    match rule
    case AsWritten => CodeBalance(ledger, userId)
    case AsExpected => ExpectedBalance(ledger, userId)
  }

  /** `currency || 'USD'`: an absent or empty currency becomes USD. */
  function CurrencyOrUsd(currency: Option<string>): (c: string)
    ensures c != ""
    ensures currency.Some? && currency.value != "" ==> c == currency.value
  {
    if currency.Some? && currency.value != "" then currency.value else "USD"
  }

  /** The account exists and belongs to the caller. */
  predicate OwnsAccount(accounts: seq<BankAccount>, userId: string, bankAccountId: string) {
    var acct := FindBankAccount(accounts, bankAccountId);
    acct.Some? && acct.value.userId == userId
  }

  /** The withdrawal row written on success. */
  function NewWithdrawal(userId: string, dto: CreateWithdrawalDto, gen: Generated): Withdrawal {
    Withdrawal(gen.withdrawalId, userId, dto.amount, dto.bankAccountId, COMPLETED, gen.now)
  }

  /** The ledger entry written with it: the amount negated, linked by id. */
  function NewWithdrawalEntry(userId: string, dto: CreateWithdrawalDto, gen: Generated): RewardTransaction {
    RewardTransaction(gen.entryId, userId, WITHDRAWAL, -Abs(dto.amount), "Withdrawal " + gen.withdrawalId,
      Some(gen.withdrawalId), gen.now)
  }

  /**
   * `create` as one atomic step from the store `s`: the outcome and the store afterwards.
   * The checks run in the source's order: minimum amount, account exists, account owned,
   * balance covers the amount.
   */
  function Process(s: Snapshot, userId: string, dto: CreateWithdrawalDto, gen: Generated, rule: BalanceRule)
    : (r: (Result<WithdrawalResponse, Thrown>, Snapshot))
    ensures r.0.Failure? ==> r.1 == s
    ensures r.0.Success? ==> dto.amount >= MinAmount && OwnsAccount(s.bankAccounts, userId, dto.bankAccountId)
                             && BalanceUnder(rule, s.ledger, userId) >= dto.amount
    ensures r.0.Success? ==> r.1.bankAccounts == s.bankAccounts
                             && |r.1.withdrawals| == |s.withdrawals| + 1 && |r.1.ledger| == |s.ledger| + 1
  {
    if dto.amount < MinAmount then
      (Failure(MinimumAmountException(MinAmount, dto.amount)), s)
    else
      var acct := FindBankAccount(s.bankAccounts, dto.bankAccountId);
      if acct.None? || acct.value.userId != userId then
        (Failure(BankAccountNotFoundException(dto.bankAccountId)), s)
      else
        var balance := BalanceUnder(rule, s.ledger, userId);
        if balance < dto.amount then
          (Failure(InsufficientFundsException(balance, dto.amount)), s)
        else
          var w := NewWithdrawal(userId, dto, gen);
          (Success(WithdrawalResponse(w.id, userId, dto.amount, dto.bankAccountId, CurrencyOrUsd(dto.currency),
              "completed", w.createdAt)),
           s.(withdrawals := s.withdrawals + [w], ledger := s.ledger + [NewWithdrawalEntry(userId, dto, gen)]))
  }

  /** The request succeeds exactly when all four checks pass. */
  lemma ProcessSucceedsIffChecksPass(s: Snapshot, userId: string, dto: CreateWithdrawalDto, gen: Generated,
                                     rule: BalanceRule)
    ensures Process(s, userId, dto, gen, rule).0.Success? <==>
      && dto.amount >= MinAmount
      && OwnsAccount(s.bankAccounts, userId, dto.bankAccountId)
      && BalanceUnder(rule, s.ledger, userId) >= dto.amount
  {
  }

  /**
   * Which error a failed request gets: below the minimum is always MinimumAmountException,
   * whatever the account; an unknown or foreign account is BankAccountNotFoundException; a
   * balance below the amount is InsufficientFundsException carrying that balance.
   */
  lemma ProcessFailureKinds(s: Snapshot, userId: string, dto: CreateWithdrawalDto, gen: Generated,
                            rule: BalanceRule)
    ensures dto.amount < MinAmount ==>
      Process(s, userId, dto, gen, rule).0 == Failure(MinimumAmountException(MinAmount, dto.amount))
    ensures dto.amount >= MinAmount && !OwnsAccount(s.bankAccounts, userId, dto.bankAccountId) ==>
      Process(s, userId, dto, gen, rule).0 == Failure(BankAccountNotFoundException(dto.bankAccountId))
    ensures dto.amount >= MinAmount && OwnsAccount(s.bankAccounts, userId, dto.bankAccountId)
            && BalanceUnder(rule, s.ledger, userId) < dto.amount ==>
      Process(s, userId, dto, gen, rule).0
        == Failure(InsufficientFundsException(BalanceUnder(rule, s.ledger, userId), dto.amount))
  {
  }

  /** Every failure leaves all three tables as they were. */
  lemma FailureWritesNothing(s: Snapshot, userId: string, dto: CreateWithdrawalDto, gen: Generated,
                             rule: BalanceRule)
    ensures Process(s, userId, dto, gen, rule).0.Failure? ==> Process(s, userId, dto, gen, rule).1 == s
  {
  }

  /**
   * Success appends exactly one COMPLETED withdrawal of the requested amount for the caller's
   * account and one WITHDRAWAL entry of minus that amount, described and linked by the new
   * withdrawal's id; the bank accounts are untouched. The response echoes the request.
   */
  lemma SuccessWritesTwoRows(s: Snapshot, userId: string, dto: CreateWithdrawalDto, gen: Generated,
                             rule: BalanceRule)
    requires Process(s, userId, dto, gen, rule).0.Success?
    ensures var (r, s') := Process(s, userId, dto, gen, rule);
      && |s'.withdrawals| == |s.withdrawals| + 1
      && s'.withdrawals[..|s.withdrawals|] == s.withdrawals
      && |s'.ledger| == |s.ledger| + 1
      && s'.ledger[..|s.ledger|] == s.ledger
      && s'.bankAccounts == s.bankAccounts
  {
    var (r, s') := Process(s, userId, dto, gen, rule);
    assert s'.withdrawals[..|s.withdrawals|] == s.withdrawals;
    assert s'.ledger[..|s.ledger|] == s.ledger;
  }

  lemma SuccessRowContents(s: Snapshot, userId: string, dto: CreateWithdrawalDto, gen: Generated,
                           rule: BalanceRule)
    requires Process(s, userId, dto, gen, rule).0.Success?
    ensures var (r, s') := Process(s, userId, dto, gen, rule);
      var w := s'.withdrawals[|s'.withdrawals| - 1];
      var e := s'.ledger[|s'.ledger| - 1];
      && w.id == gen.withdrawalId && w.userId == userId && w.amount == dto.amount
      && w.bankAccountId == dto.bankAccountId && w.status == COMPLETED
      && e.userId == userId && e.kind == WITHDRAWAL && e.amount == -dto.amount && e.amount < 0
      && e.withdrawalId == Some(w.id) && e.description == "Withdrawal " + w.id
  {
  }

  lemma SuccessResponse(s: Snapshot, userId: string, dto: CreateWithdrawalDto, gen: Generated,
                        rule: BalanceRule)
    requires Process(s, userId, dto, gen, rule).0.Success?
    ensures var r := Process(s, userId, dto, gen, rule).0.value;
      && r.id == gen.withdrawalId && r.userId == userId && r.amount == dto.amount
      && r.bankAccountId == dto.bankAccountId && r.status == "completed"
      && (dto.currency.None? ==> r.currency == "USD")
      && (dto.currency.Some? && dto.currency.value != "" ==> r.currency == dto.currency.value)
  {
  }

  /** An amount equal to the balance is accepted. */
  lemma ExactBalanceAccepted(s: Snapshot, userId: string, dto: CreateWithdrawalDto, gen: Generated,
                             rule: BalanceRule)
    requires dto.amount >= MinAmount && OwnsAccount(s.bankAccounts, userId, dto.bankAccountId)
    requires dto.amount == BalanceUnder(rule, s.ledger, userId)
    ensures Process(s, userId, dto, gen, rule).0.Success?
  {
  }

  /** Appending a withdrawal and its entry keeps every other user's sums and moves the caller's. */
  lemma {:induction false} AppendPairSums(s: Snapshot, userId: string, dto: CreateWithdrawalDto, gen: Generated,
                                          u: string)
    requires dto.amount >= MinAmount
    ensures var s' := s.(withdrawals := s.withdrawals + [NewWithdrawal(userId, dto, gen)],
                         ledger := s.ledger + [NewWithdrawalEntry(userId, dto, gen)]);
      && CreditSum(s'.ledger, u) == CreditSum(s.ledger, u)
      && RawWithdrawalSum(s'.ledger, u) == RawWithdrawalSum(s.ledger, u) - (if u == userId then dto.amount else 0)
      && CompletedSum(s'.withdrawals, u) == CompletedSum(s.withdrawals, u) + (if u == userId then dto.amount else 0)
  {
    var l' := s.ledger + [NewWithdrawalEntry(userId, dto, gen)];
    var w' := s.withdrawals + [NewWithdrawal(userId, dto, gen)];
    assert l'[..|l'| - 1] == s.ledger;
    assert w'[..|w'| - 1] == s.withdrawals;
  }

  /** With fresh ids, processing keeps the store consistent, whichever balance rule is used. */
  lemma ProcessKeepsConsistent(s: Snapshot, userId: string, dto: CreateWithdrawalDto, gen: Generated,
                               rule: BalanceRule)
    requires Consistent(s) && FreshFor(s, gen)
    ensures Consistent(Process(s, userId, dto, gen, rule).1)
  {
    var (r, s') := Process(s, userId, dto, gen, rule);
    if r.Success? {
      forall u
        ensures RawWithdrawalSum(s'.ledger, u) + CompletedSum(s'.withdrawals, u) == 0
      {
        AppendPairSums(s, userId, dto, gen, u);
      }
      assert s'.ledger[|s.ledger|].id == gen.entryId;
      assert s'.withdrawals[|s.withdrawals|].id == gen.withdrawalId;
    }
  }

  /** `create`, run as one serializable transaction against `db`. */
  method CreateWithdrawal(db: Database, userId: string, dto: CreateWithdrawalDto, gen: Generated)
    returns (r: Result<WithdrawalResponse, Thrown>)
    modifies db
    ensures (r, db.Snap()) == Process(old(db.Snap()), userId, dto, gen, AsWritten)
    ensures r.Failure? ==> db.Snap() == old(db.Snap())
    ensures r.Success? ==>
      && db.bankAccounts == old(db.bankAccounts)
      && db.withdrawals == old(db.withdrawals) + [NewWithdrawal(userId, dto, gen)]
      && db.ledger == old(db.ledger) + [NewWithdrawalEntry(userId, dto, gen)]
    ensures old(db.Valid()) && FreshFor(old(db.Snap()), gen) ==> db.Valid()
  {
    ghost var before := db.Snap();
    if dto.amount < MinAmount {
      r := Failure(MinimumAmountException(MinAmount, dto.amount));
    } else {
      var bankRow := FindBankAccount(db.bankAccounts, dto.bankAccountId);
      if bankRow.None? {
        r := Failure(BankAccountNotFoundException(dto.bankAccountId));
      } else if bankRow.value.userId != userId {
        r := Failure(BankAccountNotFoundException(dto.bankAccountId));
      } else {
        var creditSum := CreditSum(db.ledger, userId);
        var debitSum := RawWithdrawalSum(db.ledger, userId);
        var balance := creditSum - debitSum;
        assert balance == BalanceUnder(AsWritten, before.ledger, userId);
        if balance < dto.amount {
          r := Failure(InsufficientFundsException(balance, dto.amount));
        } else {
          var created := Withdrawal(gen.withdrawalId, userId, dto.amount, dto.bankAccountId, COMPLETED, gen.now);
          db.withdrawals := db.withdrawals + [created];
          db.ledger := db.ledger + [RewardTransaction(gen.entryId, userId, WITHDRAWAL, -Abs(dto.amount),
            "Withdrawal " + created.id, Some(created.id), gen.now)];
          r := Success(WithdrawalResponse(created.id, userId, dto.amount, dto.bankAccountId,
            CurrencyOrUsd(dto.currency), "completed", created.createdAt));
          assert created == NewWithdrawal(userId, dto, gen);
          assert db.Snap() == Process(before, userId, dto, gen, AsWritten).1;
        }
      }
    }
    if Consistent(before) && FreshFor(before, gen) {
      ProcessKeepsConsistent(before, userId, dto, gen, AsWritten);
    }
  }

  /** `findOne`: the stored row's fields with currency USD and the status's enum name. */
  function FindOne(withdrawals: seq<Withdrawal>, id: string): (r: Result<WithdrawalResponse, Thrown>)
    ensures r.Failure? <==> WithdrawalIdUnused(withdrawals, id)
    ensures r.Failure? ==> r.error == NotFoundException("Withdrawal not found")
    ensures r.Success? ==> r.value.id == id && r.value.currency == "USD"
    ensures r.Success? ==> exists w :: (w in withdrawals && w.id == id && r.value.userId == w.userId
      && r.value.amount == w.amount && r.value.bankAccountId == w.bankAccountId
      && r.value.status == StatusName(w.status) && r.value.createdAt == w.createdAt)
  {
    match FindWithdrawal(withdrawals, id)
    case None => Failure(NotFoundException("Withdrawal not found"))
    case Some(w) => Success(WithdrawalResponse(w.id, w.userId, w.amount, w.bankAccountId, "USD",
      StatusName(w.status), w.createdAt))
  }

  /**
   * Looking up a withdrawal just created returns what `create` answered, except that the status
   * reads "COMPLETED" (the enum name) instead of "completed", and the currency is always USD.
   */
  lemma FindOneAfterCreate(s: Snapshot, userId: string, dto: CreateWithdrawalDto, gen: Generated,
                           rule: BalanceRule)
    requires WithdrawalIdUnused(s.withdrawals, gen.withdrawalId)
    requires Process(s, userId, dto, gen, rule).0.Success?
    ensures var (r, s') := Process(s, userId, dto, gen, rule);
      FindOne(s'.withdrawals, gen.withdrawalId)
        == Success(r.value.(status := "COMPLETED", currency := "USD"))
  {
    FindAppendedWithdrawal(s.withdrawals, NewWithdrawal(userId, dto, gen));
  }
}
