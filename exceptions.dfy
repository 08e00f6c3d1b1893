/**
 * What the server throws. An `HttpException` carries a response body (a string or an object)
 * and an HTTP status; anything else thrown is a plain `Error`.
 */
module Exceptions {
  import opened ProblemDetails
  import Strings

  datatype Response = Text(text: string) | Object(fields: Fields)

  datatype Thrown =
    | HttpException(response: Response, status: int)
    | PlainError(message: string)

  const HttpNotFound: int := 404
  const HttpConflict: int := 409
  const WithdrawalsPath: string := "/withdrawals"

  /** `MinimumAmountException(minimumAmount, requestedAmount)`; both amounts in cents. */
  function MinimumAmountException(minimumAmount: int, requestedAmount: int): (e: Thrown)
    ensures e.HttpException? && e.status == HttpConflict && e.response.Object?
  {
    HttpException(Object(Build("minimum-amount-not-met", "Minimum Amount Not Met", HttpConflict,
      Str("Withdrawal amount must be at least $" + Strings.FormatCents(minimumAmount)), WithdrawalsPath,
      map["minimumAmount" := Cents(minimumAmount), "requestedAmount" := Cents(requestedAmount)])),
      HttpConflict)
  }

  /** `InsufficientFundsException(currentBalance, requestedAmount)`; both amounts in cents. */
  function InsufficientFundsException(currentBalance: int, requestedAmount: int): (e: Thrown)
    ensures e.HttpException? && e.status == HttpConflict && e.response.Object?
  {
    HttpException(Object(Build("insufficient-funds", "Insufficient Funds", HttpConflict,
      Str("Requested withdrawal amount exceeds available balance"), WithdrawalsPath,
      map["currentBalance" := Cents(currentBalance), "requestedAmount" := Cents(requestedAmount)])),
      HttpConflict)
  }

  /** `BankAccountNotFoundException(bankAccountId)`. */
  function BankAccountNotFoundException(bankAccountId: string): (e: Thrown)
    ensures e.HttpException? && e.status == HttpNotFound && e.response.Object?
  {
    HttpException(Object(Build("bank-account-not-found", "Bank Account Not Found", HttpNotFound,
      Str("The specified bank account does not exist or is not accessible"), WithdrawalsPath,
      map["bankAccountId" := Str(bankAccountId)])),
      HttpNotFound)
  }

  /**
   * The framework's `NotFoundException(message)`: its response is the object
   * `{statusCode: 404, message, error: 'Not Found'}` and its status 404.
   */
  function NotFoundException(message: string): Thrown {
    HttpException(Object(map["statusCode" := Num(HttpNotFound), "message" := Str(message),
      "error" := Str("Not Found")]), HttpNotFound)
  }

  /** The framework's `UnauthorizedException(body)` given an object: that object, with status 401. */
  function UnauthorizedException(body: Fields): Thrown {
    HttpException(Object(body), 401)
  }

  const MinimumAmountPrefix: string := "Withdrawal amount must be at least $"

  /** The minimum-amount problem: its fixed members and its 409 status in body and exception. */
  lemma MinimumAmountProblem(minimumAmount: int, requestedAmount: int)
    ensures MinimumAmountException(minimumAmount, requestedAmount).status == 409
    ensures var p := MinimumAmountException(minimumAmount, requestedAmount).response.fields;
      && p["status"] == Num(409) && p["title"] == Str("Minimum Amount Not Met")
      && p["type"] == Str(ProblemTypeBase + "minimum-amount-not-met")
      && p["instance"] == Str("/withdrawals")
  {
    var ext := map["minimumAmount" := Cents(minimumAmount), "requestedAmount" := Cents(requestedAmount)];
    assert ext.Keys == {"minimumAmount", "requestedAmount"};
    assert ext.Keys !! StandardMembers;
    assert MinimumAmountException(minimumAmount, requestedAmount).response.fields
      == Build("minimum-amount-not-met", "Minimum Amount Not Met", HttpConflict,
           Str(MinimumAmountPrefix + Strings.FormatCents(minimumAmount)), WithdrawalsPath, ext);
  }

  /** The minimum-amount problem carries both amounts as extension members and nothing else. */
  lemma MinimumAmountArguments(minimumAmount: int, requestedAmount: int)
    ensures var p := MinimumAmountException(minimumAmount, requestedAmount).response.fields;
      && p["minimumAmount"] == Cents(minimumAmount) && p["requestedAmount"] == Cents(requestedAmount)
      && p.Keys == StandardMembers + {"minimumAmount", "requestedAmount"}
  {
    var ext := map["minimumAmount" := Cents(minimumAmount), "requestedAmount" := Cents(requestedAmount)];
    assert ext.Keys == {"minimumAmount", "requestedAmount"};
  }

  /** The detail text: the prefix, then the minimum with two decimals, which reads back as the minimum. */
  lemma MinimumAmountText(minimumAmount: int)
    ensures var d := MinimumAmountPrefix + Strings.FormatCents(minimumAmount);
      && |d| > |MinimumAmountPrefix| && d[..|MinimumAmountPrefix|] == MinimumAmountPrefix
      && Strings.IsFixed2(d[|MinimumAmountPrefix|..])
      && Strings.ParseCents(d[|MinimumAmountPrefix|..]) == minimumAmount
  {
    Strings.FormatCentsRoundTrip(minimumAmount);
    var d := MinimumAmountPrefix + Strings.FormatCents(minimumAmount);
    assert d[|MinimumAmountPrefix|..] == Strings.FormatCents(minimumAmount);
    assert d[..|MinimumAmountPrefix|] == MinimumAmountPrefix;
  }

  /** The detail names the minimum with two decimals, and that text reads back as the minimum. */
  lemma MinimumAmountDetail(minimumAmount: int, requestedAmount: int)
    ensures MinimumAmountException(minimumAmount, requestedAmount).response.fields["detail"]
      == Str(MinimumAmountPrefix + Strings.FormatCents(minimumAmount))
  {
    var ext := map["minimumAmount" := Cents(minimumAmount), "requestedAmount" := Cents(requestedAmount)];
    assert ext.Keys == {"minimumAmount", "requestedAmount"};
    assert "detail" !in ext;
  }

  /** The service's minimum of 1.00 reads "Withdrawal amount must be at least $1.00". */
  lemma MinimumOfOneDollarDetail(requestedAmount: int)
    ensures MinimumAmountException(100, requestedAmount).response.fields["detail"]
      == Str("Withdrawal amount must be at least $1.00")
  {
    MinimumAmountDetail(100, requestedAmount);
    assert Strings.FormatCents(100) == "1.00";
  }

  /** The insufficient-funds problem: fixed members, 409 in body and exception. */
  lemma InsufficientFundsProblem(currentBalance: int, requestedAmount: int)
    ensures InsufficientFundsException(currentBalance, requestedAmount).status == 409
    ensures var p := InsufficientFundsException(currentBalance, requestedAmount).response.fields;
      && p["status"] == Num(409) && p["title"] == Str("Insufficient Funds")
      && p["type"] == Str(ProblemTypeBase + "insufficient-funds")
      && p["detail"] == Str("Requested withdrawal amount exceeds available balance")
      && p["instance"] == Str("/withdrawals")
  {
    var ext := map["currentBalance" := Cents(currentBalance), "requestedAmount" := Cents(requestedAmount)];
    assert ext.Keys == {"currentBalance", "requestedAmount"};
    assert ext.Keys !! StandardMembers;
    assert InsufficientFundsException(currentBalance, requestedAmount).response.fields
      == Build("insufficient-funds", "Insufficient Funds", HttpConflict,
           Str("Requested withdrawal amount exceeds available balance"), WithdrawalsPath, ext);
  }

  /** The insufficient-funds problem carries the balance and the request, and nothing else. */
  lemma InsufficientFundsArguments(currentBalance: int, requestedAmount: int)
    ensures var p := InsufficientFundsException(currentBalance, requestedAmount).response.fields;
      && p["currentBalance"] == Cents(currentBalance) && p["requestedAmount"] == Cents(requestedAmount)
      && p.Keys == StandardMembers + {"currentBalance", "requestedAmount"}
  {
    var ext := map["currentBalance" := Cents(currentBalance), "requestedAmount" := Cents(requestedAmount)];
    assert ext.Keys == {"currentBalance", "requestedAmount"};
  }

  /** The bank-account-not-found problem: fixed members, 404 in body and exception. */
  lemma BankAccountNotFoundProblem(bankAccountId: string)
    ensures BankAccountNotFoundException(bankAccountId).status == 404
    ensures var p := BankAccountNotFoundException(bankAccountId).response.fields;
      && p["status"] == Num(404) && p["title"] == Str("Bank Account Not Found")
      && p["type"] == Str(ProblemTypeBase + "bank-account-not-found")
      && p["detail"] == Str("The specified bank account does not exist or is not accessible")
      && p["instance"] == Str("/withdrawals")
  {
    var ext := map["bankAccountId" := Str(bankAccountId)];
    assert ext.Keys == {"bankAccountId"};
    assert ext.Keys !! StandardMembers;
    assert BankAccountNotFoundException(bankAccountId).response.fields
      == Build("bank-account-not-found", "Bank Account Not Found", HttpNotFound,
           Str("The specified bank account does not exist or is not accessible"), WithdrawalsPath, ext);
  }

  /** The bank-account-not-found problem carries the requested id, and nothing else. */
  lemma BankAccountNotFoundArguments(bankAccountId: string)
    ensures var p := BankAccountNotFoundException(bankAccountId).response.fields;
      p["bankAccountId"] == Str(bankAccountId) && p.Keys == StandardMembers + {"bankAccountId"}
  {
  }
}
