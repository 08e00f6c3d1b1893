/**
 * `RewardsService`: the balance derived from the ledger, the cursor-paged history in
 * `(createdAt desc, id desc)` order, and manual INCOME credits.
 */
module Rewards {
  import opened Wrappers
  import opened Strings
  import opened Sorting
  import opened Exceptions
  import opened Ledger
  import opened Store

  datatype RewardsSummary = RewardsSummary(balance: int, currency: string)

  /** `calculateBalance`: credits minus the raw WITHDRAWAL sum, in USD. */
  function CalculateBalance(ledger: seq<RewardTransaction>, userId: string): (r: RewardsSummary)
    ensures r.currency == "USD"
    ensures r.balance == CreditSum(ledger, userId) - RawWithdrawalSum(ledger, userId)
  {
    RewardsSummary(CodeBalance(ledger, userId), "USD")
  }

  /** A user without entries has balance 0 (both aggregates are empty). */
  lemma NoEntriesZeroBalance(ledger: seq<RewardTransaction>, userId: string)
    requires forall i :: 0 <= i < |ledger| ==> ledger[i].userId != userId
    ensures CalculateBalance(ledger, userId) == RewardsSummary(0, "USD")
  {
    SumsCountOnlyTheUser(ledger, userId);
  }

  /** Rows of other users, wherever they sit in the table, do not change a user's balance. */
  lemma BalanceIgnoresOtherUsers(before: seq<RewardTransaction>, others: seq<RewardTransaction>,
                                 after: seq<RewardTransaction>, userId: string)
    requires forall i :: 0 <= i < |others| ==> others[i].userId != userId
    ensures CalculateBalance(before + others + after, userId) == CalculateBalance(before + after, userId)
  {
    SumsCountOnlyTheUser(others, userId);
    SumsAdditive(before + others, after, userId);
    SumsAdditive(before, others, userId);
    SumsAdditive(before, after, userId);
  }

  /**
   * One more entry of the user moves the balance by its amount if it is a credit and by minus
   * its amount if it is a WITHDRAWAL: a negative WITHDRAWAL entry raises the balance.
   */
  lemma BalanceAfterEntry(ledger: seq<RewardTransaction>, e: RewardTransaction)
    ensures CalculateBalance(ledger + [e], e.userId).balance
      == CalculateBalance(ledger, e.userId).balance
         + (if IsCredit(e.kind) then e.amount else -e.amount)
  {
    assert (ledger + [e])[..|ledger + [e]| - 1] == ledger;
  }

  /**
   * The unit test's ledger: credits of 300.00 and a WITHDRAWAL entry of -120.50. The test
   * expects 179.50 (credits plus the signed sum); the service as written computes 420.50.
   */
  lemma UnitTestBalance()
    ensures var ledger := [
        RewardTransaction("t1", "user-1", CASHBACK, 30000, "", None, 0),
        RewardTransaction("t2", "user-1", WITHDRAWAL, -12050, "", None, 1)];
      && ExpectedBalance(ledger, "user-1") == 17950
      && CalculateBalance(ledger, "user-1").balance == 42050
  {
    var ledger := [
        RewardTransaction("t1", "user-1", CASHBACK, 30000, "", None, 0),
        RewardTransaction("t2", "user-1", WITHDRAWAL, -12050, "", None, 1)];
    assert ledger[..1] == [ledger[0]];
    assert ledger[..1][..0] == [];
    assert CreditSum(ledger[..1], "user-1") == 30000;
    assert RawWithdrawalSum(ledger[..1], "user-1") == 0;
    assert CreditSum(ledger, "user-1") == 30000;
    assert RawWithdrawalSum(ledger, "user-1") == -12050;
  }

  /**
   * In a consistent store the expected formula is what the user may still withdraw: credits
   * minus COMPLETED withdrawals. The formula as written adds those withdrawals instead.
   */
  lemma ExpectedBalanceIsAvailable(s: Snapshot, userId: string)
    requires Consistent(s)
    ensures ExpectedBalance(s.ledger, userId) == CreditSum(s.ledger, userId) - CompletedSum(s.withdrawals, userId)
    ensures CalculateBalance(s.ledger, userId).balance
      == CreditSum(s.ledger, userId) + CompletedSum(s.withdrawals, userId)
  {
    assert RawWithdrawalSum(s.ledger, userId) + CompletedSum(s.withdrawals, userId) == 0;
  }

  // ---------------------------------------------------------------- history

  function EntryId(e: RewardTransaction): string {
    e.id
  }

  /** `orderBy: [{createdAt: 'desc'}, {id: 'desc'}]`: `a` may be listed before `b`. */
  predicate NewerOrSame(a: RewardTransaction, b: RewardTransaction) {
    a.createdAt > b.createdAt || (a.createdAt == b.createdAt && !LexLess(a.id, b.id))
  }

  lemma NewerOrSameIsTotalPreorder()
    ensures TotalPreorder(NewerOrSame)
  {
    forall a: RewardTransaction, b: RewardTransaction
      ensures NewerOrSame(a, b) || NewerOrSame(b, a)
    {
      if LexLess(a.id, b.id) && LexLess(b.id, a.id) {
        LexLessTransitive(a.id, b.id, a.id);
        LexLessIrreflexive(a.id);
      }
    }
    forall a: RewardTransaction, b: RewardTransaction, c: RewardTransaction
      | NewerOrSame(a, b) && NewerOrSame(b, c)
      ensures NewerOrSame(a, c)
    {
      if a.createdAt == b.createdAt == c.createdAt && LexLess(a.id, c.id) {
        LexLessTotal(a.id, b.id);
        if LexLess(b.id, a.id) {
          LexLessTransitive(b.id, a.id, c.id);
        }
      }
    }
  }

  /** The user's entries in table order (`where: {userId}`). */
  function UserEntries(ledger: seq<RewardTransaction>, userId: string): (r: seq<RewardTransaction>)
    ensures forall e :: e in r <==> e in ledger && e.userId == userId
  {
    if ledger == [] then []
    else
      var e := ledger[|ledger| - 1];
      assert ledger == ledger[..|ledger| - 1] + [e];
      UserEntries(ledger[..|ledger| - 1], userId) + (if e.userId == userId then [e] else [])
  }

  lemma {:induction false} UserEntriesIdsDistinct(ledger: seq<RewardTransaction>, userId: string)
    requires EntryIdsDistinct(ledger)
    ensures KeysDistinct(UserEntries(ledger, userId), EntryId)
  {
    if ledger != [] {
      var init := ledger[..|ledger| - 1];
      var e := ledger[|ledger| - 1];
      UserEntriesIdsDistinct(init, userId);
      var r0 := UserEntries(init, userId);
      forall i | 0 <= i < |r0|
        ensures r0[i].id != e.id
      {
        assert r0[i] in init;
        var k :| 0 <= k < |init| && init[k] == r0[i];
        assert ledger[k] == r0[i];
      }
    }
  }

  /** The user's entries as the store returns them: newest first, ties by id descending. */
  function OrderedHistory(ledger: seq<RewardTransaction>, userId: string): (h: seq<RewardTransaction>)
    ensures SortedBy(h, NewerOrSame)
    ensures multiset(h) == multiset(UserEntries(ledger, userId))
  {
    NewerOrSameIsTotalPreorder();
    SortSorted(UserEntries(ledger, userId), NewerOrSame);
    Sort(UserEntries(ledger, userId), NewerOrSame)
  }

  /**
   * The ordered history holds exactly the user's entries, sorted by `(createdAt desc, id desc)`,
   * and with distinct ids in the table no id repeats in it.
   */
  lemma OrderedHistoryProperties(ledger: seq<RewardTransaction>, userId: string)
    ensures var h := OrderedHistory(ledger, userId);
      && (forall e :: e in h <==> e in ledger && e.userId == userId)
      && SortedBy(h, NewerOrSame)
      && multiset(h) == multiset(UserEntries(ledger, userId))
    ensures EntryIdsDistinct(ledger) ==> KeysDistinct(OrderedHistory(ledger, userId), EntryId)
  {
    var u := UserEntries(ledger, userId);
    NewerOrSameIsTotalPreorder();
    SortSorted(u, NewerOrSame);
    forall e
      ensures e in Sort(u, NewerOrSame) <==> e in u
    {
      SortMembers(u, NewerOrSame, e);
    }
    if EntryIdsDistinct(ledger) {
      UserEntriesIdsDistinct(ledger, userId);
      SortKeysDistinct(u, NewerOrSame, EntryId);
    }
  }

  datatype TransactionDto = TransactionDto(
    id: string,
    kind: TransactionType,
    amount: int,
    description: string,
    createdAt: int)

  function ToDto(e: RewardTransaction): TransactionDto {
    TransactionDto(e.id, e.kind, e.amount, e.description, e.createdAt)
  }

  /** The rows as the endpoint returns them, one DTO per row in the same order. */
  function ToDtos(s: seq<RewardTransaction>): (r: seq<TransactionDto>)
    ensures |r| == |s|
  {
    seq(|s|, i requires 0 <= i < |s| => ToDto(s[i]))
  }

  datatype PaginatedTransactions = PaginatedTransactions(
    transactions: seq<TransactionDto>,
    nextCursor: Option<string>,
    hasMore: bool,
    count: int)

  /** The largest page. */
  const MaxPage: int := 100

  /** Position of the first entry with the given id, or `|h|` when there is none. */
  function IndexOf(h: seq<RewardTransaction>, id: string): (i: nat)
    ensures i <= |h|
    ensures i < |h| ==> h[i].id == id
    ensures forall j :: 0 <= j < i ==> h[j].id != id
  {
    if h == [] then 0
    else if h[0].id == id then 0
    else 1 + IndexOf(h[1..], id)
  }

  /** Where a page begins: after the cursor row when a non-empty cursor is given (`if (cursor)`). */
  function StartIndex(h: seq<RewardTransaction>, cursor: Option<string>): nat {
    if cursor.Some? && cursor.value != "" then IndexOf(h, cursor.value) + 1 else 0
  }

  /** The cursor, when one is used, is the id of one of the user's entries. */
  predicate CursorNamesEntry(ledger: seq<RewardTransaction>, userId: string, cursor: Option<string>) {
    cursor.None? || cursor.value == ""
    || exists i :: 0 <= i < |ledger| && ledger[i].id == cursor.value && ledger[i].userId == userId
  }

  lemma CursorInHistory(ledger: seq<RewardTransaction>, userId: string, cursor: Option<string>)
    requires CursorNamesEntry(ledger, userId, cursor)
    ensures StartIndex(OrderedHistory(ledger, userId), cursor) <= |OrderedHistory(ledger, userId)|
  {
    if cursor.Some? && cursor.value != "" {
      var i :| 0 <= i < |ledger| && ledger[i].id == cursor.value && ledger[i].userId == userId;
      OrderedHistoryProperties(ledger, userId);
      var h := OrderedHistory(ledger, userId);
      assert ledger[i] in h;
      var k :| 0 <= k < |h| && h[k] == ledger[i];
      assert IndexOf(h, cursor.value) <= k;
    }
  }

  /**
   * One page of `h` from position `start`: `take + 1` rows are read, and the extra row only
   * signals that more exist. When it does, the cursor is the id of the page's last entry.
   */
  function PageOf(h: seq<RewardTransaction>, start: nat, take: nat): (p: PaginatedTransactions)
    requires start <= |h| && take >= 1
    ensures |p.transactions| == Min(take, |h| - start) && p.count == |p.transactions|
    ensures p.transactions == ToDtos(h[start..start + |p.transactions|])
    ensures p.hasMore <==> |h| - start > take
    ensures p.hasMore ==> p.nextCursor == Some(h[start + take - 1].id)
    ensures !p.hasMore ==> p.nextCursor == None
  {
    var rows := h[start..Min(start + take + 1, |h|)];
    var hasMore := |rows| > take;
    var items := if hasMore then rows[..take] else rows;
    assert items == h[start..start + |items|];
    var transactions := ToDtos(items);
    PaginatedTransactions(transactions, if hasMore then Some(items[|items| - 1].id) else None, hasMore,
      |transactions|)
  }

  /**
   * `getTransactionHistory`: the page of the user's ordered history that starts after the
   * cursor, of at most `min(limit, 100)` entries.
   */
  function GetTransactionHistory(ledger: seq<RewardTransaction>, userId: string, limit: int,
                                 cursor: Option<string>): (p: PaginatedTransactions)
    requires limit >= 1
    requires CursorNamesEntry(ledger, userId, cursor)
    ensures 1 <= |p.transactions| || !p.hasMore
    ensures |p.transactions| <= MaxPage && |p.transactions| <= limit && p.count == |p.transactions|
    ensures p.hasMore <==> p.nextCursor.Some?
  {
    var h := OrderedHistory(ledger, userId);
    CursorInHistory(ledger, userId, cursor);
    PageOf(h, StartIndex(h, cursor), Min(limit, MaxPage))
  }

  /**
   * A page is the next `min(limit, 100)` entries of the ordered history from the start
   * position, or all that remain when fewer do; `count` is its length.
   */
  lemma PageContents(ledger: seq<RewardTransaction>, userId: string, limit: int, cursor: Option<string>)
    requires limit >= 1
    requires CursorNamesEntry(ledger, userId, cursor)
    ensures var p := GetTransactionHistory(ledger, userId, limit, cursor);
      var h := OrderedHistory(ledger, userId);
      var start := StartIndex(h, cursor);
      && start <= |h|
      && |p.transactions| == Min(Min(limit, MaxPage), |h| - start)
      && p.transactions == ToDtos(h[start..start + |p.transactions|])
      && p.count == |p.transactions|
  {
    HistoryIsPage(ledger, userId, limit, cursor);
  }

  /**
   * `hasMore` holds exactly when more than `take` entries remain; then `nextCursor` is the id of
   * the page's last entry, and otherwise it is null.
   */
  lemma PageHasMore(ledger: seq<RewardTransaction>, userId: string, limit: int, cursor: Option<string>)
    requires limit >= 1
    requires CursorNamesEntry(ledger, userId, cursor)
    ensures var p := GetTransactionHistory(ledger, userId, limit, cursor);
      var h := OrderedHistory(ledger, userId);
      && (p.hasMore <==> |h| - StartIndex(h, cursor) > Min(limit, MaxPage))
      && (p.hasMore ==> |p.transactions| == Min(limit, MaxPage)
                        && p.nextCursor == Some(p.transactions[|p.transactions| - 1].id))
      && (!p.hasMore ==> p.nextCursor == None)
  {
    CursorInHistory(ledger, userId, cursor);
  }

  /** In a sorted history with distinct ids, every later entry is strictly older. */
  lemma LaterIsStrictlyOlder(h: seq<RewardTransaction>, k: int, j: int)
    requires SortedBy(h, NewerOrSame) && KeysDistinct(h, EntryId)
    requires 0 <= k < j < |h|
    ensures h[j].id != h[k].id
    ensures h[k].createdAt > h[j].createdAt || (h[k].createdAt == h[j].createdAt && LexLess(h[j].id, h[k].id))
  {
    assert EntryId(h[k]) != EntryId(h[j]);
    assert NewerOrSame(h[k], h[j]);
    LexLessTotal(h[j].id, h[k].id);
  }

  /** In a sorted history with distinct ids, every entry of a page that starts after row `k` is older than it. */
  lemma PageAfterRowIsOlder(h: seq<RewardTransaction>, k: nat, take: nat)
    requires SortedBy(h, NewerOrSame) && KeysDistinct(h, EntryId)
    requires k < |h| && take >= 1
    ensures var t := PageOf(h, k + 1, take).transactions;
      forall i :: 0 <= i < |t| ==>
        && t[i].id != h[k].id
        && (h[k].createdAt > t[i].createdAt || (h[k].createdAt == t[i].createdAt && LexLess(t[i].id, h[k].id)))
  {
    var t := PageOf(h, k + 1, take).transactions;
    forall i | 0 <= i < |t|
      ensures t[i].id != h[k].id
      ensures h[k].createdAt > t[i].createdAt || (h[k].createdAt == t[i].createdAt && LexLess(t[i].id, h[k].id))
    {
      assert t[i] == ToDto(h[k + 1 + i]);
      LaterIsStrictlyOlder(h, k, k + 1 + i);
    }
  }

  /**
   * After a cursor every entry of the page is strictly older than the cursor row in
   * `(createdAt, id)` order, so the cursor row itself is never repeated.
   */
  lemma PageStrictlyAfterCursor(ledger: seq<RewardTransaction>, userId: string, limit: int, cursor: Option<string>,
                                cursorRow: RewardTransaction)
    requires limit >= 1
    requires EntryIdsDistinct(ledger)
    requires cursor.Some? && cursor.value != ""
    requires cursorRow in ledger && cursorRow.userId == userId && cursorRow.id == cursor.value
    ensures CursorNamesEntry(ledger, userId, cursor)
    ensures var p := GetTransactionHistory(ledger, userId, limit, cursor);
      forall i :: 0 <= i < |p.transactions| ==>
        && p.transactions[i].id != cursor.value
        && (cursorRow.createdAt > p.transactions[i].createdAt
            || (cursorRow.createdAt == p.transactions[i].createdAt && LexLess(p.transactions[i].id, cursor.value)))
  {
    var i0 :| 0 <= i0 < |ledger| && ledger[i0] == cursorRow;
    assert CursorNamesEntry(ledger, userId, cursor);
    var h := OrderedHistory(ledger, userId);
    var k := IndexOf(h, cursor.value);
    CursorRowPosition(ledger, userId, cursorRow);
    assert StartIndex(h, cursor) == k + 1;
    PageAfterRowIsOlder(h, k, Min(limit, MaxPage));
  }

  /** The cursor row sits at the position `IndexOf` finds for its id. */
  lemma CursorRowPosition(ledger: seq<RewardTransaction>, userId: string, cursorRow: RewardTransaction)
    requires EntryIdsDistinct(ledger)
    requires cursorRow in ledger && cursorRow.userId == userId
    ensures var h := OrderedHistory(ledger, userId);
      && SortedBy(h, NewerOrSame) && KeysDistinct(h, EntryId)
      && IndexOf(h, cursorRow.id) < |h| && h[IndexOf(h, cursorRow.id)] == cursorRow
  {
    OrderedHistoryProperties(ledger, userId);
    var h := OrderedHistory(ledger, userId);
    var k := IndexOf(h, cursorRow.id);
    assert cursorRow in h;
    var c :| 0 <= c < |h| && h[c] == cursorRow;
    assert k <= c;
  }

  /** With distinct ids, the position `IndexOf` finds for an entry's id is the entry's own. */
  lemma IndexOfDistinct(h: seq<RewardTransaction>, k: int)
    requires KeysDistinct(h, EntryId)
    requires 0 <= k < |h|
    ensures IndexOf(h, h[k].id) == k
  {
  }

  /** When more remain, `nextCursor` is the id of the history entry that ends the page. */
  lemma NextCursorIsPageEnd(ledger: seq<RewardTransaction>, userId: string, limit: int, cursor: Option<string>)
    requires limit >= 1
    requires CursorNamesEntry(ledger, userId, cursor)
    requires GetTransactionHistory(ledger, userId, limit, cursor).hasMore
    ensures var h := OrderedHistory(ledger, userId);
      var last := StartIndex(h, cursor) + Min(limit, MaxPage) - 1;
      && 0 <= last < |h|
      && GetTransactionHistory(ledger, userId, limit, cursor).nextCursor == Some(h[last].id)
  {
    HistoryIsPage(ledger, userId, limit, cursor);
  }

  /** The service's answer is the page of the ordered history at the cursor's start position. */
  lemma HistoryIsPage(ledger: seq<RewardTransaction>, userId: string, limit: int, cursor: Option<string>)
    requires limit >= 1
    requires CursorNamesEntry(ledger, userId, cursor)
    ensures var h := OrderedHistory(ledger, userId);
      && StartIndex(h, cursor) <= |h|
      && GetTransactionHistory(ledger, userId, limit, cursor) == PageOf(h, StartIndex(h, cursor), Min(limit, MaxPage))
  {
    CursorInHistory(ledger, userId, cursor);
  }

  /** Following `nextCursor` starts the next page right after the current one. */
  lemma NextCursorAdvances(ledger: seq<RewardTransaction>, userId: string, limit: int, cursor: Option<string>)
    requires limit >= 1
    requires EntryIdsDistinct(ledger) && EntryIdsNonEmpty(ledger)
    requires CursorNamesEntry(ledger, userId, cursor)
    requires GetTransactionHistory(ledger, userId, limit, cursor).hasMore
    ensures var p := GetTransactionHistory(ledger, userId, limit, cursor);
      var h := OrderedHistory(ledger, userId);
      && CursorNamesEntry(ledger, userId, p.nextCursor)
      && StartIndex(h, p.nextCursor) == StartIndex(h, cursor) + Min(limit, MaxPage)
  {
    NextCursorIsPageEnd(ledger, userId, limit, cursor);
    OrderedHistoryProperties(ledger, userId);
    var h := OrderedHistory(ledger, userId);
    var last := StartIndex(h, cursor) + Min(limit, MaxPage) - 1;
    var e := h[last];
    assert e in h;
    var i :| 0 <= i < |ledger| && ledger[i] == e;
    assert e.id != "";
    IndexOfDistinct(h, last);
  }

  lemma ToDtosSplit(s: seq<RewardTransaction>, n: int)
    requires 0 <= n <= |s|
    ensures ToDtos(s) == ToDtos(s[..n]) + ToDtos(s[n..])
  {
  }

  /** A page of `h` from `start` followed by the DTOs of everything after it is the DTOs of `h[start..]`. */
  lemma ToDtosOfSuffix(h: seq<RewardTransaction>, start: int, n: int, rest: seq<TransactionDto>)
    requires 0 <= start <= start + n <= |h|
    requires rest == ToDtos(h[start + n..])
    ensures ToDtos(h[start..start + n]) + rest == ToDtos(h[start..])
  {
    ToDtosSplit(h[start..], n);
    assert h[start..][..n] == h[start..start + n];
    assert h[start..][n..] == h[start + n..];
  }

  /** Every id in the history names exactly one entry and none is empty, so any id can serve as a cursor. */
  ghost predicate UsableIds(h: seq<RewardTransaction>) {
    KeysDistinct(h, EntryId) && forall i :: 0 <= i < |h| ==> h[i].id != ""
  }

  lemma HistoryIdsUsable(ledger: seq<RewardTransaction>, userId: string)
    requires EntryIdsDistinct(ledger) && EntryIdsNonEmpty(ledger)
    ensures UsableIds(OrderedHistory(ledger, userId))
  {
    OrderedHistoryProperties(ledger, userId);
    var h := OrderedHistory(ledger, userId);
    forall i | 0 <= i < |h|
      ensures h[i].id != ""
    {
      assert h[i] in h;
      var k :| 0 <= k < |ledger| && ledger[k] == h[i];
    }
  }

  /** On a history with usable ids, the cursor a page returns starts the next page right after it. */
  lemma PageCursorAdvances(h: seq<RewardTransaction>, cursor: Option<string>, take: nat)
    requires UsableIds(h) && StartIndex(h, cursor) <= |h| && take >= 1
    requires PageOf(h, StartIndex(h, cursor), take).hasMore
    ensures StartIndex(h, PageOf(h, StartIndex(h, cursor), take).nextCursor) == StartIndex(h, cursor) + take
  {
    IndexOfDistinct(h, StartIndex(h, cursor) + take - 1);
  }

  /** The pages of `h` from `cursor` on, following each page's `nextCursor` while `hasMore`. */
  function PagesFrom(h: seq<RewardTransaction>, cursor: Option<string>, take: nat): seq<TransactionDto>
    requires UsableIds(h) && StartIndex(h, cursor) <= |h| && take >= 1
    decreases |h| - StartIndex(h, cursor)
  {
    var p := PageOf(h, StartIndex(h, cursor), take);
    if p.hasMore then
      PageCursorAdvances(h, cursor, take);
      p.transactions + PagesFrom(h, p.nextCursor, take)
    else p.transactions
  }

  /** The walk from `cursor` covers the rest of the history exactly once, in order. */
  lemma {:induction false} PagesFromIsSuffix(h: seq<RewardTransaction>, cursor: Option<string>, take: nat)
    requires UsableIds(h) && StartIndex(h, cursor) <= |h| && take >= 1
    ensures PagesFrom(h, cursor, take) == ToDtos(h[StartIndex(h, cursor)..])
    decreases |h| - StartIndex(h, cursor)
  {
    var start := StartIndex(h, cursor);
    var p := PageOf(h, start, take);
    PagesFromUnfold(h, cursor, take);
    if p.hasMore {
      PageCursorAdvances(h, cursor, take);
      PagesFromIsSuffix(h, p.nextCursor, take);
      ToDtosOfSuffix(h, start, take, PagesFrom(h, p.nextCursor, take));
    } else {
      LastPageIsSuffix(h, start, take);
    }
  }

  /** A page without more holds the whole rest of the history. */
  lemma LastPageIsSuffix(h: seq<RewardTransaction>, start: nat, take: nat)
    requires start <= |h| && take >= 1
    requires !PageOf(h, start, take).hasMore
    ensures PageOf(h, start, take).transactions == ToDtos(h[start..])
  {
    var p := PageOf(h, start, take);
    assert h[start..start + |p.transactions|] == h[start..];
  }

  /** One step of the walk: the page at the cursor, then the walk from its `nextCursor` when there is more. */
  lemma PagesFromUnfold(h: seq<RewardTransaction>, cursor: Option<string>, take: nat)
    requires UsableIds(h) && StartIndex(h, cursor) <= |h| && take >= 1
    ensures var p := PageOf(h, StartIndex(h, cursor), take);
      && (p.hasMore ==> StartIndex(h, p.nextCursor) <= |h|
                        && PagesFrom(h, cursor, take) == p.transactions + PagesFrom(h, p.nextCursor, take))
      && (!p.hasMore ==> PagesFrom(h, cursor, take) == p.transactions)
  {
    if PageOf(h, StartIndex(h, cursor), take).hasMore {
      PageCursorAdvances(h, cursor, take);
    }
  }

  /**
   * What a client collects by requesting `getTransactionHistory` from `cursor`, then again from
   * each returned `nextCursor` while `hasMore`.
   */
  function AllPages(ledger: seq<RewardTransaction>, userId: string, limit: int, cursor: Option<string>)
    : seq<TransactionDto>
    requires limit >= 1
    requires EntryIdsDistinct(ledger) && EntryIdsNonEmpty(ledger)
    requires CursorNamesEntry(ledger, userId, cursor)
  {
    CursorInHistory(ledger, userId, cursor);
    HistoryIdsUsable(ledger, userId);
    PagesFrom(OrderedHistory(ledger, userId), cursor, Min(limit, MaxPage))
  }

  /**
   * The walk's first page is the service's answer for `cursor`, and when it has more the walk
   * goes on exactly from the `nextCursor` the service returned.
   */
  lemma AllPagesFollowsCursor(ledger: seq<RewardTransaction>, userId: string, limit: int, cursor: Option<string>)
    requires limit >= 1
    requires EntryIdsDistinct(ledger) && EntryIdsNonEmpty(ledger)
    requires CursorNamesEntry(ledger, userId, cursor)
    ensures var p := GetTransactionHistory(ledger, userId, limit, cursor);
      && (p.hasMore ==> CursorNamesEntry(ledger, userId, p.nextCursor)
                        && AllPages(ledger, userId, limit, cursor)
                           == p.transactions + AllPages(ledger, userId, limit, p.nextCursor))
      && (!p.hasMore ==> AllPages(ledger, userId, limit, cursor) == p.transactions)
  {
    CursorInHistory(ledger, userId, cursor);
    HistoryIdsUsable(ledger, userId);
    var h := OrderedHistory(ledger, userId);
    var p := GetTransactionHistory(ledger, userId, limit, cursor);
    assert p == PageOf(h, StartIndex(h, cursor), Min(limit, MaxPage));
    if p.hasMore {
      NextCursorAdvances(ledger, userId, limit, cursor);
    }
  }

  /** Paging through with `nextCursor` yields the whole remaining history once, in order. */
  lemma AllPagesIsWholeHistory(ledger: seq<RewardTransaction>, userId: string, limit: int, cursor: Option<string>)
    requires limit >= 1
    requires EntryIdsDistinct(ledger) && EntryIdsNonEmpty(ledger)
    requires CursorNamesEntry(ledger, userId, cursor)
    ensures var h := OrderedHistory(ledger, userId);
      StartIndex(h, cursor) <= |h|
      && AllPages(ledger, userId, limit, cursor) == ToDtos(h[StartIndex(h, cursor)..])
  {
    CursorInHistory(ledger, userId, cursor);
    HistoryIdsUsable(ledger, userId);
    PagesFromIsSuffix(OrderedHistory(ledger, userId), cursor, Min(limit, MaxPage));
  }

  /** Starting without a cursor, the pages together are the user's whole ordered history. */
  lemma FirstPageOnwardIsWholeHistory(ledger: seq<RewardTransaction>, userId: string, limit: int)
    requires limit >= 1
    requires EntryIdsDistinct(ledger) && EntryIdsNonEmpty(ledger)
    ensures AllPages(ledger, userId, limit, None) == ToDtos(OrderedHistory(ledger, userId))
  {
    AllPagesIsWholeHistory(ledger, userId, limit, None);
    assert OrderedHistory(ledger, userId)[0..] == OrderedHistory(ledger, userId);
  }

  // ---------------------------------------------------------------- manual income

  /** The smallest credit, 0.01 in cents. */
  const MinIncome: int := 1

  datatype IncomeResponse = IncomeResponse(
    id: string,
    userId: string,
    amount: int,
    description: string,
    createdAt: int)

  /** `${description || 'Manual test top-up'} [MANUAL_TEST_TOPUP]`. */
  function IncomeDescription(description: Option<string>): string {
    (if description.Some? && description.value != "" then description.value else "Manual test top-up")
      + " [MANUAL_TEST_TOPUP]"
  }

  function NewIncomeEntry(userId: string, amount: int, description: Option<string>, entryId: string, now: int)
    : RewardTransaction
  {
    RewardTransaction(entryId, userId, INCOME, amount, IncomeDescription(description), None, now)
  }

  /** `createIncomeTransaction` from the store `s`: the outcome and the store afterwards. */
  function Income(s: Snapshot, userId: string, amount: int, description: Option<string>, entryId: string, now: int)
    : (r: (Result<IncomeResponse, Thrown>, Snapshot))
    ensures r.0.Success? <==> amount >= MinIncome
    ensures r.0.Failure? ==> r.1 == s
    ensures r.0.Success? ==> r.1.withdrawals == s.withdrawals && r.1.bankAccounts == s.bankAccounts
                             && |r.1.ledger| == |s.ledger| + 1 && r.1.ledger[|s.ledger|].kind == INCOME
                             && r.1.ledger[|s.ledger|].amount == amount
  {
    if amount < MinIncome then (Failure(PlainError("Minimum amount not met")), s)
    else
      var e := NewIncomeEntry(userId, amount, description, entryId, now);
      (Success(IncomeResponse(e.id, e.userId, e.amount, e.description, e.createdAt)), s.(ledger := s.ledger + [e]))
  }

  /**
   * Amounts below 0.01 fail with a plain error and write nothing; any other amount appends
   * exactly one INCOME entry for the user and touches neither withdrawals nor bank accounts.
   */
  lemma IncomeOutcome(s: Snapshot, userId: string, amount: int, description: Option<string>, entryId: string,
                      now: int)
    ensures var (r, s') := Income(s, userId, amount, description, entryId, now);
      && (r.Success? <==> amount >= MinIncome)
      && (r.Failure? ==> r.error == PlainError("Minimum amount not met") && s' == s)
      && (r.Success? ==>
            && s'.withdrawals == s.withdrawals && s'.bankAccounts == s.bankAccounts
            && |s'.ledger| == |s.ledger| + 1 && s'.ledger[..|s.ledger|] == s.ledger
            && s'.ledger[|s.ledger|].kind == INCOME && s'.ledger[|s.ledger|].userId == userId
            && s'.ledger[|s.ledger|].amount == amount
            && r.value.amount == amount && r.value.userId == userId)
  {
    if amount >= MinIncome {
      var (r, s') := Income(s, userId, amount, description, entryId, now);
      assert s'.ledger[..|s.ledger|] == s.ledger;
    }
  }

  /** The description is the given text, or the default one, followed by the top-up marker. */
  lemma IncomeDescriptionMarked(description: Option<string>)
    ensures var d := IncomeDescription(description);
      var marker := " [MANUAL_TEST_TOPUP]";
      var text := if description.Some? && description.value != "" then description.value else "Manual test top-up";
      && |d| == |text| + |marker|
      && d[..|text|] == text
      && d[|text|..] == marker
  {
  }

  /** A credit raises exactly that user's balance by the amount. */
  lemma IncomeRaisesBalance(s: Snapshot, userId: string, amount: int, description: Option<string>, entryId: string,
                            now: int, u: string)
    requires amount >= MinIncome
    ensures var s' := Income(s, userId, amount, description, entryId, now).1;
      CalculateBalance(s'.ledger, u).balance
        == CalculateBalance(s.ledger, u).balance + (if u == userId then amount else 0)
  {
    var e := NewIncomeEntry(userId, amount, description, entryId, now);
    assert (s.ledger + [e])[..|s.ledger + [e]| - 1] == s.ledger;
  }

  /** With a fresh id, a credit keeps the store consistent. */
  lemma IncomeKeepsConsistent(s: Snapshot, userId: string, amount: int, description: Option<string>,
                              entryId: string, now: int)
    requires Consistent(s) && entryId != "" && EntryIdUnused(s.ledger, entryId)
    ensures Consistent(Income(s, userId, amount, description, entryId, now).1)
  {
    var (r, s') := Income(s, userId, amount, description, entryId, now);
    if r.Success? {
      var e := NewIncomeEntry(userId, amount, description, entryId, now);
      forall u
        ensures RawWithdrawalSum(s'.ledger, u) + CompletedSum(s'.withdrawals, u) == 0
      {
        assert s'.ledger[..|s'.ledger| - 1] == s.ledger;
      }
    }
  }

  /** `createIncomeTransaction` against `db`. */
  method CreateIncomeTransaction(db: Database, userId: string, amount: int, description: Option<string>,
                                 entryId: string, now: int)
    returns (r: Result<IncomeResponse, Thrown>)
    modifies db
    ensures (r, db.Snap()) == Income(old(db.Snap()), userId, amount, description, entryId, now)
    ensures r.Failure? ==> db.Snap() == old(db.Snap())
    ensures r.Success? ==>
      && db.withdrawals == old(db.withdrawals) && db.bankAccounts == old(db.bankAccounts)
      && db.ledger == old(db.ledger) + [NewIncomeEntry(userId, amount, description, entryId, now)]
    ensures old(db.Valid()) && entryId != "" && EntryIdUnused(old(db.ledger), entryId) ==> db.Valid()
  {
    ghost var before := db.Snap();
    if amount < MinIncome {
      return Failure(PlainError("Minimum amount not met"));
    }
    var desc := IncomeDescription(description);
    var created := RewardTransaction(entryId, userId, INCOME, amount, desc, None, now);
    db.ledger := db.ledger + [created];
    r := Success(IncomeResponse(created.id, created.userId, created.amount, created.description, created.createdAt));
    if Consistent(before) && entryId != "" && EntryIdUnused(before.ledger, entryId) {
      IncomeKeepsConsistent(before, userId, amount, description, entryId, now);
    }
  }
}
