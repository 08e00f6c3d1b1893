/**
 * `formatSignedAmount` and `getAmountType`: an amount shown with an explicit sign, and the class
 * that tells incoming from outgoing amounts. Currency formatting (`formatCurrency`, which uses
 * `Intl.NumberFormat`) is the parameter `formatCurrency`.
 */
module SignedAmount {
  import opened Wrappers

  function RealAbs(x: real): (r: real)
    ensures r >= 0.0 && (r == x || r == -x)
  {
    if x < 0.0 then -x else x
  }

  /**
   * `formatSignedAmount(amount, currency = 'USD', locale = 'en-US')`: the sign, then the
   * currency formatting of the magnitude.
   */
  function FormatSignedAmount(amount: real, currency: Option<string>, locale: Option<string>,
                              formatCurrency: (real, string, string) -> string): (s: string)
    ensures |s| >= 1 && (s[0] == '+' || s[0] == '-')
    ensures s[0] == '+' <==> amount >= 0.0
    ensures s[1..] == formatCurrency(RealAbs(amount), currency.GetOr("USD"), locale.GetOr("en-US"))
  {
    var formatted := formatCurrency(RealAbs(amount), currency.GetOr("USD"), locale.GetOr("en-US"));
    var sign := if amount >= 0.0 then "+" else "-";
    sign + formatted
  }

  datatype AmountType = Incoming | Outgoing

  /** `getAmountType`. */
  function GetAmountType(amount: real): (t: AmountType)
    ensures t == Incoming <==> amount >= 0.0
  {
    if amount >= 0.0 then Incoming else Outgoing
  }

  /** The class says incoming exactly when the formatted amount carries '+'; zero is both. */
  lemma SignMatchesAmountType(amount: real, currency: Option<string>, locale: Option<string>,
                              formatCurrency: (real, string, string) -> string)
    ensures FormatSignedAmount(amount, currency, locale, formatCurrency)[0] == '+'
      <==> GetAmountType(amount) == Incoming
    ensures amount == 0.0 ==>
      FormatSignedAmount(amount, currency, locale, formatCurrency)[0] == '+' && GetAmountType(amount) == Incoming
  {
  }

  /** An amount and its negation are shown with the same digits and opposite signs. */
  lemma NegationFlipsOnlyTheSign(amount: real, currency: Option<string>, locale: Option<string>,
                                 formatCurrency: (real, string, string) -> string)
    requires amount != 0.0
    ensures var a := FormatSignedAmount(amount, currency, locale, formatCurrency);
      var b := FormatSignedAmount(-amount, currency, locale, formatCurrency);
      a[1..] == b[1..] && a[0] != b[0]
  {
    assert RealAbs(amount) == RealAbs(-amount);
  }

  /**
   * With a formatter that renders 25.5 and 10 in US dollars as "$25.50" and "$10.00", the
   * amounts 25.5 and -10 come out as "+$25.50" and "-$10.00".
   */
  lemma ListExamples(formatCurrency: (real, string, string) -> string)
    requires formatCurrency(25.5, "USD", "en-US") == "$25.50"
    requires formatCurrency(10.0, "USD", "en-US") == "$10.00"
    ensures FormatSignedAmount(25.5, None, None, formatCurrency) == "+$25.50"
    ensures FormatSignedAmount(-10.0, None, None, formatCurrency) == "-$10.00"
  {
    assert RealAbs(-10.0) == 10.0;
  }
}
