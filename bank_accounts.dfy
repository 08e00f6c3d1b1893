/**
 * `BankAccountsService`: the caller's active bank accounts, newest first, each with a masked
 * account number.
 */
module BankAccounts {
  import opened Wrappers
  import opened Sorting
  import opened Ledger

  /** `maskAccountNumber`: the stored last four, else `xxxx` without a number, else its last four characters. */
  function MaskAccountNumber(accountNumber: Option<string>, lastFour: Option<string>): (m: string)
    ensures lastFour.Some? && lastFour.value != "" ==> m == lastFour.value
    ensures (lastFour.None? || lastFour.value == "") && (accountNumber.None? || accountNumber.value == "")
      ==> m == "xxxx"
    ensures (lastFour.None? || lastFour.value == "") && accountNumber.Some? && accountNumber.value != "" ==>
      var n := accountNumber.value;
      |m| == Min(4, |n|) && m == n[|n| - |m|..]
  {
    if lastFour.Some? && lastFour.value != "" then lastFour.value
    else if accountNumber.None? || accountNumber.value == "" then "xxxx"
    else
      var n := accountNumber.value;
      n[(if |n| >= 4 then |n| - 4 else 0)..]
  }

  /** The unit test's rows: a full number masks to its last four; a stored last four is kept. */
  lemma MaskExamples()
    ensures MaskAccountNumber(Some("0000111122223333"), None) == "3333"
    ensures MaskAccountNumber(None, Some("4444")) == "4444"
    ensures MaskAccountNumber(Some("12"), None) == "12"
  {
  }

  datatype BankAccountDto = BankAccountDto(
    id: string,
    lastFourDigits: string,
    accountType: Option<string>,
    isActive: bool,
    createdAt: int)

  datatype BankAccountsResponse = BankAccountsResponse(accounts: seq<BankAccountDto>, count: int)

  /** `where: {userId, isActive: true}`, in table order. */
  function ActiveAccountsOf(rows: seq<BankAccount>, userId: string): (r: seq<BankAccount>)
    ensures forall a :: a in r <==> a in rows && a.userId == userId && a.isActive
  {
    if rows == [] then []
    else
      var a := rows[|rows| - 1];
      assert rows == rows[..|rows| - 1] + [a];
      ActiveAccountsOf(rows[..|rows| - 1], userId) + (if a.userId == userId && a.isActive then [a] else [])
  }

  /** `orderBy: {createdAt: 'desc'}`. */
  predicate CreatedNotBefore(a: BankAccount, b: BankAccount) {
    a.createdAt >= b.createdAt
  }

  function ToDto(a: BankAccount): BankAccountDto {
    BankAccountDto(a.id, MaskAccountNumber(a.accountNumber, a.lastFourDigits), a.accountType, a.isActive, a.createdAt)
  }

  /** `findAllByUserId`. */
  function FindAllByUserId(rows: seq<BankAccount>, userId: string): (r: BankAccountsResponse)
    ensures r.count == |r.accounts| == |ActiveAccountsOf(rows, userId)|
  {
    var selected := Sort(ActiveAccountsOf(rows, userId), CreatedNotBefore);
    var accounts := seq(|selected|, i requires 0 <= i < |selected| => ToDto(selected[i]));
    BankAccountsResponse(accounts, |accounts|)
  }

  /**
   * Each listed account is an active row of the user, with its id, type and active flag kept
   * and its number masked; there is one per such row.
   */
  lemma FindAllListsActiveRows(rows: seq<BankAccount>, userId: string)
    ensures var r := FindAllByUserId(rows, userId);
      && r.count == |r.accounts| == |ActiveAccountsOf(rows, userId)|
      && forall i :: 0 <= i < |r.accounts| ==>
           exists a :: (a in rows && a.userId == userId && a.isActive && r.accounts[i] == ToDto(a))
  {
    var selected := Sort(ActiveAccountsOf(rows, userId), CreatedNotBefore);
    var r := FindAllByUserId(rows, userId);
    forall i | 0 <= i < |r.accounts|
      ensures exists a :: (a in rows && a.userId == userId && a.isActive && r.accounts[i] == ToDto(a))
    {
      SortMembers(ActiveAccountsOf(rows, userId), CreatedNotBefore, selected[i]);
      assert r.accounts[i] == ToDto(selected[i]);
    }
  }

  /** The listing is ordered by `createdAt`, newest first. */
  lemma FindAllNewestFirst(rows: seq<BankAccount>, userId: string)
    ensures var r := FindAllByUserId(rows, userId);
      forall i, j :: 0 <= i < j < |r.accounts| ==> r.accounts[i].createdAt >= r.accounts[j].createdAt
  {
    var selected := Sort(ActiveAccountsOf(rows, userId), CreatedNotBefore);
    SortSorted(ActiveAccountsOf(rows, userId), CreatedNotBefore);
    var r := FindAllByUserId(rows, userId);
    forall i, j | 0 <= i < j < |r.accounts|
      ensures r.accounts[i].createdAt >= r.accounts[j].createdAt
    {
      assert CreatedNotBefore(selected[i], selected[j]);
    }
  }

  /** A listed account keeps its row's id, type and active flag and carries the masked number. */
  lemma ListedFields(a: BankAccount)
    ensures ToDto(a).id == a.id && ToDto(a).accountType == a.accountType && ToDto(a).isActive == a.isActive
    ensures ToDto(a).lastFourDigits == MaskAccountNumber(a.accountNumber, a.lastFourDigits)
  {
  }

  /** Every active account of the user is listed. */
  lemma FindAllIsComplete(rows: seq<BankAccount>, userId: string, a: BankAccount)
    requires a in rows && a.userId == userId && a.isActive
    ensures ToDto(a) in FindAllByUserId(rows, userId).accounts
  {
    var selected := Sort(ActiveAccountsOf(rows, userId), CreatedNotBefore);
    SortMembers(ActiveAccountsOf(rows, userId), CreatedNotBefore, a);
    var i :| 0 <= i < |selected| && selected[i] == a;
    assert FindAllByUserId(rows, userId).accounts[i] == ToDto(a);
  }

  /** A user without active accounts gets an empty list and count 0. */
  lemma NoAccountsEmptyListing(rows: seq<BankAccount>, userId: string)
    requires forall i :: 0 <= i < |rows| ==> rows[i].userId != userId || !rows[i].isActive
    ensures FindAllByUserId(rows, userId) == BankAccountsResponse([], 0)
  {
    NoActiveRows(rows, userId);
  }

  lemma {:induction false} NoActiveRows(rows: seq<BankAccount>, userId: string)
    requires forall i :: 0 <= i < |rows| ==> rows[i].userId != userId || !rows[i].isActive
    ensures ActiveAccountsOf(rows, userId) == []
  {
    if rows != [] {
      NoActiveRows(rows[..|rows| - 1], userId);
    }
  }
}
