/**
 * The client's runtime checks on API responses (`isValidTransaction`, `isValidRewardsSummary`,
 * `isValidPaginatedTransactions`), and the JSON the server's rewards endpoints produce, so
 * that what the server sends can be held against what the client accepts.
 */
module TypeGuards {
  import opened Wrappers
  import opened Strings
  import opened JsValues
  import opened Ledger
  import opened Rewards

  /** The transaction types the check accepts; the client's type union also lists 'ATH'. */
  const AcceptedTypes: seq<string> := ["CASHBACK", "REFERRAL_BONUS", "WITHDRAWAL", "INCOME"]

  /** `isValidTransaction`. Whether `Date.parse` yields a number is the parameter `dateParses`. */
  predicate IsValidTransaction(v: JsValue, dateParses: string -> bool)
    ensures IsValidTransaction(v, dateParses) ==> v.Obj? && Get(v, "type") != Str("ATH")
  {
    && IsObject(v)
    && Get(v, "id").Str? && |Get(v, "id").s| > 0
    && Get(v, "type").Str? && Get(v, "type").s in AcceptedTypes
    && Get(v, "amount").Num? && Get(v, "amount").n != 0.0
    && Get(v, "description").Str?
    && Get(v, "createdAt").Str? && dateParses(Get(v, "createdAt").s)
  }

  /** An object carrying the five transaction fields, over whatever other properties `extra` has. */
  function TransactionObject(extra: map<string, JsValue>, id: string, kind: string, amount: real,
                             description: string, createdAt: string): JsValue
  {
    Obj(extra + map["id" := Str(id), "type" := Str(kind), "amount" := Num(amount),
                    "description" := Str(description), "createdAt" := Str(createdAt)])
  }

  /**
   * A transaction-shaped object is accepted exactly when its id is non-empty, its type is one of
   * the four ledger types, its amount is non-zero and its timestamp parses; other properties
   * do not matter.
   */
  lemma TransactionAcceptedIff(extra: map<string, JsValue>, id: string, kind: string, amount: real,
                               description: string, createdAt: string, dateParses: string -> bool)
    ensures IsValidTransaction(TransactionObject(extra, id, kind, amount, description, createdAt), dateParses)
      <==> id != "" && kind in AcceptedTypes && amount != 0.0 && dateParses(createdAt)
  {
  }

  /** 'ATH' is rejected although the client's type union lists it. */
  lemma AthRejected(v: JsValue, dateParses: string -> bool)
    requires Get(v, "type") == Str("ATH")
    ensures !IsValidTransaction(v, dateParses)
  {
  }

  /** A missing or non-string id, a zero or non-numeric amount each make the check fail. */
  lemma TransactionRejections(v: JsValue, dateParses: string -> bool)
    ensures Get(v, "id") == Str("") ==> !IsValidTransaction(v, dateParses)
    ensures !Get(v, "id").Str? ==> !IsValidTransaction(v, dateParses)
    ensures Get(v, "amount") == Num(0.0) ==> !IsValidTransaction(v, dateParses)
    ensures !Get(v, "amount").Num? ==> !IsValidTransaction(v, dateParses)
    ensures !Get(v, "description").Str? ==> !IsValidTransaction(v, dateParses)
    ensures v.Arr? || v == Null ==> !IsValidTransaction(v, dateParses)
  {
  }

  /** The JSON of one server transaction: the amount in dollars, the timestamp as `iso` renders it. */
  function TransactionJson(d: TransactionDto, iso: int -> string): JsValue {
    TransactionObject(map[], d.id, TypeName(d.kind), d.amount as real / 100.0, d.description, iso(d.createdAt))
  }

  /**
   * Every ledger type the server sends passes the type check, so a server transaction is
   * accepted exactly when its id is non-empty, its amount is non-zero and its timestamp parses.
   */
  lemma ServerTransactionAccepted(d: TransactionDto, iso: int -> string, dateParses: string -> bool)
    ensures IsValidTransaction(TransactionJson(d, iso), dateParses)
      <==> d.id != "" && d.amount != 0 && dateParses(iso(d.createdAt))
  {
    TransactionAcceptedIff(map[], d.id, TypeName(d.kind), d.amount as real / 100.0, d.description,
      iso(d.createdAt), dateParses);
  }

  /** No ASCII lower-case letter in `s`. */
  predicate NoLowercase(s: string) {
    forall i :: 0 <= i < |s| ==> !('a' <= s[i] <= 'z')
  }

  /** `s === s.toUpperCase()` holds exactly when `s` has no lower-case letter. */
  lemma UpperFixedIffNoLowercase(s: string)
    ensures s == ToUpper(s) <==> NoLowercase(s)
  {
    if s == ToUpper(s) {
      forall i | 0 <= i < |s|
        ensures !('a' <= s[i] <= 'z')
      {
        assert ToUpper(s)[i] == UpperChar(s[i]);
      }
    }
  }

  /** `isValidRewardsSummary`. */
  predicate IsValidRewardsSummary(v: JsValue)
    ensures IsValidRewardsSummary(v) ==> v.Obj? && Get(v, "currency").Str? && NoLowercase(Get(v, "currency").s)
  {
    && IsObject(v)
    && Get(v, "balance").Num? && Get(v, "balance").n >= 0.0
    && Get(v, "currency").Str? && |Get(v, "currency").s| == 3
    && (UpperFixedIffNoLowercase(Get(v, "currency").s);
        Get(v, "currency").s == ToUpper(Get(v, "currency").s))
  }

  function SummaryObject(extra: map<string, JsValue>, balance: real, currency: string): JsValue {
    Obj(extra + map["balance" := Num(balance), "currency" := Str(currency)])
  }

  /**
   * A summary is accepted exactly when the balance is not negative and the currency has three
   * characters none of which is a lower-case letter (so "US1" passes: nothing asks for letters).
   */
  lemma SummaryAcceptedIff(extra: map<string, JsValue>, balance: real, currency: string)
    ensures IsValidRewardsSummary(SummaryObject(extra, balance, currency))
      <==> balance >= 0.0 && |currency| == 3 && NoLowercase(currency)
    ensures IsValidRewardsSummary(SummaryObject(extra, 0.0, "US1"))
    ensures !IsValidRewardsSummary(SummaryObject(extra, 1.0, "usd"))
  {
    UpperFixedIffNoLowercase(currency);
    UpperFixedIffNoLowercase("US1");
    UpperFixedIffNoLowercase("usd");
    assert !NoLowercase("usd") by { assert 'a' <= "usd"[0] <= 'z'; }
  }

  function SummaryJson(r: RewardsSummary): JsValue {
    SummaryObject(map[], r.balance as real / 100.0, r.currency)
  }

  /** A summary in US dollars is accepted exactly when its balance is not negative. */
  lemma UsdSummaryAccepted(r: RewardsSummary)
    requires r.currency == "USD"
    ensures IsValidRewardsSummary(SummaryJson(r)) <==> r.balance >= 0
  {
    SummaryAcceptedIff(map[], r.balance as real / 100.0, "USD");
    assert NoLowercase("USD");
  }

  /** The server's summary is accepted exactly when the balance it computed is not negative. */
  lemma ServerSummaryAccepted(ledger: seq<RewardTransaction>, userId: string)
    ensures IsValidRewardsSummary(SummaryJson(CalculateBalance(ledger, userId)))
      <==> CalculateBalance(ledger, userId).balance >= 0
  {
    UsdSummaryAccepted(CalculateBalance(ledger, userId));
  }

  /** `isValidPaginatedTransactions`, as written. */
  predicate IsValidPaginatedTransactions(v: JsValue, dateParses: string -> bool)
    ensures IsValidPaginatedTransactions(v, dateParses) ==>
      v.Obj? && Get(v, "transactions").Arr? && AllValid(Get(v, "transactions").items, dateParses)
  {
    if !IsObject(v) || !Get(v, "transactions").Arr? || !Get(v, "hasMore").Bool? then false
    else if Get(v, "hasMore").b && Get(v, "nextCursor") == Null then false
    else if !Get(v, "hasMore").b && Get(v, "nextCursor") != Null then false
    else AllValid(Get(v, "transactions").items, dateParses)
  }

  /** `transactions.every(isValidTransaction)`. */
  predicate AllValid(items: seq<JsValue>, dateParses: string -> bool) {
    forall i :: 0 <= i < |items| ==> IsValidTransaction(items[i], dateParses)
  }

  /** A page object; `cursor` is `None` when the property is absent. */
  function PageObject(items: seq<JsValue>, hasMore: bool, cursor: Option<JsValue>): JsValue {
    var base := map["transactions" := Arr(items), "hasMore" := Bool(hasMore)];
    Obj(if cursor.Some? then base["nextCursor" := cursor.value] else base)
  }

  /**
   * A page is accepted exactly when a page with more has a cursor that is not null, the last page
   * has a cursor that is null (an absent one fails), and every transaction is valid.
   */
  lemma PageAcceptedIff(items: seq<JsValue>, hasMore: bool, cursor: Option<JsValue>, dateParses: string -> bool)
    ensures IsValidPaginatedTransactions(PageObject(items, hasMore, cursor), dateParses)
      <==> (if hasMore then cursor != Some(Null) else cursor == Some(Null)) && AllValid(items, dateParses)
  {
  }

  /** What every accepted page satisfies. */
  lemma AcceptedPageShape(v: JsValue, dateParses: string -> bool)
    requires IsValidPaginatedTransactions(v, dateParses)
    ensures v.Obj? && Get(v, "transactions").Arr? && Get(v, "hasMore").Bool?
    ensures Get(v, "hasMore").b ==> Get(v, "nextCursor") != Null
    ensures !Get(v, "hasMore").b ==> Get(v, "nextCursor") == Null && "nextCursor" in v.props
    ensures forall t :: t in Get(v, "transactions").items ==> IsValidTransaction(t, dateParses)
  {
  }

  /**
   * As written, a page that claims more transactions but carries no `nextCursor` property (or a
   * number, or an object, in its place) passes the check.
   */
  lemma MissingCursorWithMoreAccepted(dateParses: string -> bool)
    ensures IsValidPaginatedTransactions(PageObject([], true, None), dateParses)
    ensures IsValidPaginatedTransactions(PageObject([], true, Some(Num(7.0))), dateParses)
  {
  }

  /** The check with the cursor rule as its comment states it: more pages need a string cursor. */
  predicate IsValidPaginatedTransactionsStrict(v: JsValue, dateParses: string -> bool) {
    && IsValidPaginatedTransactions(v, dateParses)
    && (Get(v, "hasMore").b ==> Get(v, "nextCursor").Str?)
  }

  /**
   * The corrected check accepts exactly the pages whose cursor is a string when there are more,
   * null on the last page, and whose transactions are all valid.
   */
  lemma StrictPageAcceptedIff(items: seq<JsValue>, hasMore: bool, cursor: Option<JsValue>,
                              dateParses: string -> bool)
    ensures IsValidPaginatedTransactionsStrict(PageObject(items, hasMore, cursor), dateParses)
      <==> (if hasMore then cursor.Some? && cursor.value.Str? else cursor == Some(Null))
           && AllValid(items, dateParses)
    ensures !IsValidPaginatedTransactionsStrict(PageObject(items, true, None), dateParses)
  {
    PageAcceptedIff(items, hasMore, cursor, dateParses);
  }

  function CursorJson(c: Option<string>): JsValue {
    if c.Some? then Str(c.value) else Null
  }

  /** The JSON array of a page's transactions. */
  function ItemsJson(ts: seq<TransactionDto>, iso: int -> string): (items: seq<JsValue>)
    ensures |items| == |ts|
  {
    seq(|ts|, i requires 0 <= i < |ts| => TransactionJson(ts[i], iso))
  }

  function PageJson(p: PaginatedTransactions, iso: int -> string): JsValue {
    PageObject(ItemsJson(p.transactions, iso), p.hasMore, Some(CursorJson(p.nextCursor)))
  }

  /** The server's transactions all pass exactly when each has an id, a non-zero amount and a parsable timestamp. */
  lemma ServerItemsAccepted(ts: seq<TransactionDto>, iso: int -> string, dateParses: string -> bool)
    ensures AllValid(ItemsJson(ts, iso), dateParses)
      <==> forall d :: d in ts ==> d.id != "" && d.amount != 0 && dateParses(iso(d.createdAt))
  {
    var items := ItemsJson(ts, iso);
    forall i | 0 <= i < |items|
      ensures IsValidTransaction(items[i], dateParses)
              <==> ts[i].id != "" && ts[i].amount != 0 && dateParses(iso(ts[i].createdAt))
    {
      ServerTransactionAccepted(ts[i], iso, dateParses);
    }
  }

  /**
   * A page of history as the server builds it passes even the corrected check exactly when each
   * of its transactions has a non-empty id, a non-zero amount and a parsable timestamp.
   */
  lemma ServerPageAccepted(ledger: seq<RewardTransaction>, userId: string, limit: int, cursor: Option<string>,
                           iso: int -> string, dateParses: string -> bool)
    requires limit >= 1
    requires CursorNamesEntry(ledger, userId, cursor)
    ensures var p := GetTransactionHistory(ledger, userId, limit, cursor);
      IsValidPaginatedTransactionsStrict(PageJson(p, iso), dateParses)
      <==> forall d :: d in p.transactions ==> d.id != "" && d.amount != 0 && dateParses(iso(d.createdAt))
  {
    var p := GetTransactionHistory(ledger, userId, limit, cursor);
    StrictPageAcceptedIff(ItemsJson(p.transactions, iso), p.hasMore, Some(CursorJson(p.nextCursor)), dateParses);
    ServerItemsAccepted(p.transactions, iso, dateParses);
  }
}
