/**
 * Whether withdrawals can overdraw: runs of withdrawals and credits against one store, the
 * no-overdraft invariant under the expected balance formula, and the two-withdrawal run that
 * overdraws under the formula as written.
 */
module Safety {
  import opened Wrappers
  import opened Exceptions
  import opened Ledger
  import opened Store
  import opened Withdrawals
  import opened Rewards

  /** One committed service call. */
  datatype Op =
    | Withdraw(userId: string, dto: CreateWithdrawalDto, gen: Generated)
    | TopUp(userId: string, amount: int, description: Option<string>, entryId: string, now: int)

  function Step(s: Snapshot, op: Op, rule: BalanceRule): Snapshot {
    match op
    case Withdraw(userId, dto, gen) => Process(s, userId, dto, gen, rule).1
    case TopUp(userId, amount, description, entryId, now) => Income(s, userId, amount, description, entryId, now).1
  }

  /** The calls one after another, each seeing the previous one's writes (serializable). */
  function Run(s: Snapshot, ops: seq<Op>, rule: BalanceRule): Snapshot
    decreases |ops|
  {
    if ops == [] then s else Run(Step(s, ops[0], rule), ops[1..], rule)
  }

  /** The store generates unused ids for each call. */
  predicate FreshOp(s: Snapshot, op: Op) {
    match op
    case Withdraw(_, _, gen) => FreshFor(s, gen)
    case TopUp(_, _, _, entryId, _) => entryId != "" && EntryIdUnused(s.ledger, entryId)
  }

  predicate FreshRun(s: Snapshot, ops: seq<Op>, rule: BalanceRule)
    decreases |ops|
  {
    ops == [] || (FreshOp(s, ops[0]) && FreshRun(Step(s, ops[0], rule), ops[1..], rule))
  }

  /** No user has had more paid out in COMPLETED withdrawals than was credited to them. */
  ghost predicate NoOverdraft(s: Snapshot) {
    forall u :: CompletedSum(s.withdrawals, u) <= CreditSum(s.ledger, u)
  }

  /** A withdrawal checked against the expected balance cannot overdraw. */
  lemma WithdrawKeepsNoOverdraft(s: Snapshot, userId: string, dto: CreateWithdrawalDto, gen: Generated)
    requires Consistent(s) && NoOverdraft(s) && FreshFor(s, gen)
    ensures Consistent(Process(s, userId, dto, gen, AsExpected).1)
    ensures NoOverdraft(Process(s, userId, dto, gen, AsExpected).1)
  {
    ProcessKeepsConsistent(s, userId, dto, gen, AsExpected);
    var (r, s') := Process(s, userId, dto, gen, AsExpected);
    if r.Success? {
      forall u
        ensures CompletedSum(s'.withdrawals, u) <= CreditSum(s'.ledger, u)
      {
        AppendPairSums(s, userId, dto, gen, u);
        ExpectedBalanceIsAvailable(s, u);
      }
    }
  }

  /** A credit cannot create an overdraft. */
  lemma TopUpKeepsNoOverdraft(s: Snapshot, userId: string, amount: int, description: Option<string>,
                              entryId: string, now: int)
    requires Consistent(s) && NoOverdraft(s) && entryId != "" && EntryIdUnused(s.ledger, entryId)
    ensures Consistent(Income(s, userId, amount, description, entryId, now).1)
    ensures NoOverdraft(Income(s, userId, amount, description, entryId, now).1)
  {
    IncomeKeepsConsistent(s, userId, amount, description, entryId, now);
    var (r, s') := Income(s, userId, amount, description, entryId, now);
    if r.Success? {
      forall u
        ensures CompletedSum(s'.withdrawals, u) <= CreditSum(s'.ledger, u)
      {
        assert s'.ledger[..|s'.ledger| - 1] == s.ledger;
      }
    }
  }

  /**
   * With the funds check on the expected balance, every run from a consistent store without
   * overdraft stays consistent and without overdraft.
   */
  lemma {:induction false} ExpectedGuardNeverOverdraws(s: Snapshot, ops: seq<Op>)
    requires Consistent(s) && NoOverdraft(s) && FreshRun(s, ops, AsExpected)
    ensures Consistent(Run(s, ops, AsExpected)) && NoOverdraft(Run(s, ops, AsExpected))
    decreases |ops|
  {
    if ops != [] {
      match ops[0] {
        case Withdraw(userId, dto, gen) => WithdrawKeepsNoOverdraft(s, userId, dto, gen);
        case TopUp(userId, amount, description, entryId, now) =>
          TopUpKeepsNoOverdraft(s, userId, amount, description, entryId, now);
      }
      ExpectedGuardNeverOverdraws(Step(s, ops[0], AsExpected), ops[1..]);
    }
  }

  /** One user with 100.00 of cashback and one bank account. */
  function OverdraftStart(): Snapshot {
    Snapshot([RewardTransaction("c1", "u", CASHBACK, 10000, "", None, 0)], [],
      [BankAccount("b", "u", None, None, None, true, 0)])
  }

  function FullBalance(): CreateWithdrawalDto {
    CreateWithdrawalDto(10000, "b", None)
  }

  /** The starting store is consistent, has no overdraft, and credits the user 100.00. */
  lemma OverdraftStartIsSound()
    ensures Consistent(OverdraftStart()) && NoOverdraft(OverdraftStart())
    ensures CreditSum(OverdraftStart().ledger, "u") == 10000 && RawWithdrawalSum(OverdraftStart().ledger, "u") == 0
  {
    var s0 := OverdraftStart();
    forall u
      ensures CompletedSum(s0.withdrawals, u) <= CreditSum(s0.ledger, u)
      ensures RawWithdrawalSum(s0.ledger, u) + CompletedSum(s0.withdrawals, u) == 0
    {
      assert s0.ledger[..0] == [];
    }
  }

  /** Under either formula the first withdrawal of the full 100.00 goes through. */
  lemma FirstFullWithdrawal(rule: BalanceRule)
    ensures var (r1, s1) := Process(OverdraftStart(), "u", FullBalance(), Generated("w1", "e1", 1), rule);
      && r1.Success?
      && CreditSum(s1.ledger, "u") == 10000 && RawWithdrawalSum(s1.ledger, "u") == -10000
      && CompletedSum(s1.withdrawals, "u") == 10000
      && OwnsAccount(s1.bankAccounts, "u", "b")
      && FreshFor(s1, Generated("w2", "e2", 2))
  {
    var s0 := OverdraftStart();
    var g1 := Generated("w1", "e1", 1);
    OverdraftStartIsSound();
    assert OwnsAccount(s0.bankAccounts, "u", "b");
    assert BalanceUnder(rule, s0.ledger, "u") == 10000;
    AppendPairSums(s0, "u", FullBalance(), g1, "u");
  }

  /**
   * The funds check as written lets two successive withdrawals of the full 100.00 through:
   * the first entry of -100.00 raises the computed balance to 200.00. Afterwards 200.00 has
   * been paid out against 100.00 of credits.
   */
  lemma AsWrittenGuardOverdraws()
    ensures var s0 := OverdraftStart();
      var (r1, s1) := Process(s0, "u", FullBalance(), Generated("w1", "e1", 1), AsWritten);
      var (r2, s2) := Process(s1, "u", FullBalance(), Generated("w2", "e2", 2), AsWritten);
      && Consistent(s0) && NoOverdraft(s0)
      && FreshFor(s0, Generated("w1", "e1", 1)) && FreshFor(s1, Generated("w2", "e2", 2))
      && r1.Success? && r2.Success?
      && CompletedSum(s2.withdrawals, "u") == 20000 && CreditSum(s2.ledger, "u") == 10000
      && !NoOverdraft(s2)
  {
    OverdraftStartIsSound();
    FirstFullWithdrawal(AsWritten);
    var s1 := Process(OverdraftStart(), "u", FullBalance(), Generated("w1", "e1", 1), AsWritten).1;
    assert CodeBalance(s1.ledger, "u") == 20000;
    AppendPairSums(s1, "u", FullBalance(), Generated("w2", "e2", 2), "u");
  }

  /** From the same store, the expected formula refuses the second withdrawal, reporting balance 0. */
  lemma ExpectedGuardRefusesSecond()
    ensures var s0 := OverdraftStart();
      var (r1, s1) := Process(s0, "u", FullBalance(), Generated("w1", "e1", 1), AsExpected);
      var (r2, s2) := Process(s1, "u", FullBalance(), Generated("w2", "e2", 2), AsExpected);
      && r1.Success?
      && r2 == Failure(InsufficientFundsException(0, 10000))
      && s2 == s1
  {
    FirstFullWithdrawal(AsExpected);
    var s1 := Process(OverdraftStart(), "u", FullBalance(), Generated("w1", "e1", 1), AsExpected).1;
    assert ExpectedBalance(s1.ledger, "u") == 0;
    ProcessFailureKinds(s1, "u", FullBalance(), Generated("w2", "e2", 2), AsExpected);
    FailureWritesNothing(s1, "u", FullBalance(), Generated("w2", "e2", 2), AsExpected);
  }
}
