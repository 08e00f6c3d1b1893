/**
 * The relational store behind both services: three tables held as sequences in insertion order.
 * A row id is the table's primary key; the store fills new ids and `createdAt` itself, which the
 * model receives as fresh values from the caller.
 */
module Store {
  import opened Wrappers
  import opened Ledger

  /** The three tables at one moment. */
  datatype Snapshot = Snapshot(
    ledger: seq<RewardTransaction>,
    withdrawals: seq<Withdrawal>,
    bankAccounts: seq<BankAccount>)

  /** The values the store generates on insert: uuids for both new rows and the current time. */
  datatype Generated = Generated(withdrawalId: string, entryId: string, now: int)

  predicate EntryIdsDistinct(ledger: seq<RewardTransaction>) {
    forall i, j :: 0 <= i < j < |ledger| ==> ledger[i].id != ledger[j].id
  }

  predicate WithdrawalIdsDistinct(withdrawals: seq<Withdrawal>) {
    forall i, j :: 0 <= i < j < |withdrawals| ==> withdrawals[i].id != withdrawals[j].id
  }

  predicate EntryIdsNonEmpty(ledger: seq<RewardTransaction>) {
    forall i :: 0 <= i < |ledger| ==> ledger[i].id != ""
  }

  predicate EntryIdUnused(ledger: seq<RewardTransaction>, id: string) {
    forall i :: 0 <= i < |ledger| ==> ledger[i].id != id
  }

  predicate WithdrawalIdUnused(withdrawals: seq<Withdrawal>, id: string) {
    forall i :: 0 <= i < |withdrawals| ==> withdrawals[i].id != id
  }

  /** Generated ids are new, non-empty uuids. */
  predicate FreshFor(s: Snapshot, gen: Generated) {
    && gen.entryId != ""
    && EntryIdUnused(s.ledger, gen.entryId)
    && WithdrawalIdUnused(s.withdrawals, gen.withdrawalId)
  }

  /**
   * Every user's WITHDRAWAL entries cancel their COMPLETED withdrawals: the processor writes
   * the two together, the ledger copy negated.
   */
  ghost predicate Balanced(s: Snapshot) {
    forall u :: RawWithdrawalSum(s.ledger, u) + CompletedSum(s.withdrawals, u) == 0
  }

  /** What the store guarantees of its contents between operations. */
  ghost predicate Consistent(s: Snapshot) {
    && EntryIdsDistinct(s.ledger)
    && EntryIdsNonEmpty(s.ledger)
    && WithdrawalIdsDistinct(s.withdrawals)
    && WithdrawalEntriesNegative(s.ledger)
    && Balanced(s)
  }

  /** The store with no rows. */
  lemma EmptyIsConsistent()
    ensures Consistent(Snapshot([], [], []))
  {
  }

  /** Lookup of a bank account by primary key. */
  function FindBankAccount(accounts: seq<BankAccount>, id: string): (r: Option<BankAccount>)
    ensures r.Some? ==> r.value in accounts && r.value.id == id
    ensures r.None? <==> forall i :: 0 <= i < |accounts| ==> accounts[i].id != id
  {
    if accounts == [] then None
    else if accounts[0].id == id then Some(accounts[0])
    else FindBankAccount(accounts[1..], id)
  }

  /** Lookup of a withdrawal by primary key. */
  function FindWithdrawal(withdrawals: seq<Withdrawal>, id: string): (r: Option<Withdrawal>)
    ensures r.Some? ==> r.value in withdrawals && r.value.id == id
    ensures r.None? <==> WithdrawalIdUnused(withdrawals, id)
  {
    if withdrawals == [] then None
    else if withdrawals[0].id == id then Some(withdrawals[0])
    else FindWithdrawal(withdrawals[1..], id)
  }

  /** A row appended under an id not used before is what a later lookup of that id finds. */
  lemma {:induction false} FindAppendedWithdrawal(withdrawals: seq<Withdrawal>, w: Withdrawal)
    requires WithdrawalIdUnused(withdrawals, w.id)
    ensures FindWithdrawal(withdrawals + [w], w.id) == Some(w)
  {
    if withdrawals != [] {
      assert (withdrawals + [w])[1..] == withdrawals[1..] + [w];
      FindAppendedWithdrawal(withdrawals[1..], w);
    }
  }

  /** The database: the three tables, which the services append to. */
  class Database {
    var ledger: seq<RewardTransaction>
    var withdrawals: seq<Withdrawal>
    var bankAccounts: seq<BankAccount>

    function Snap(): Snapshot
      reads this
    {
      Snapshot(ledger, withdrawals, bankAccounts)
    }

    ghost predicate Valid()
      reads this
    {
      Consistent(Snap())
    }

    constructor (initial: Snapshot)
      ensures Snap() == initial
    {
      ledger := initial.ledger;
      withdrawals := initial.withdrawals;
      bankAccounts := initial.bankAccounts;
    }
  }
}
