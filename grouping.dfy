/**
 * `groupTransactionsByMonth`: transactions grouped under their (year, month-name) header,
 * groups newest first. The calendar (`new Date(..).getFullYear()` and `getMonthName`) is the
 * parameter `cal`, over timestamps in milliseconds.
 */
module Grouping {

  /** A transaction as the client holds it; `createdAt` is its timestamp. */
  datatype Transaction = Transaction(id: string, kind: string, amount: real, description: string, createdAt: int)

  datatype TransactionGroup = TransactionGroup(month: string, year: int, transactions: seq<Transaction>)

  /** The `${year}-${month}` key, kept as the pair it encodes. */
  datatype MonthKey = MonthKey(year: int, month: string)

  datatype Calendar = Calendar(yearOf: int -> int, monthNameOf: int -> string) {
    function KeyOf(t: Transaction): MonthKey {
      MonthKey(yearOf(t.createdAt), monthNameOf(t.createdAt))
    }
  }

  function KeyOfGroup(g: TransactionGroup): MonthKey {
    MonthKey(g.year, g.month)
  }

  /** The keys of `ts` in order of first appearance, which is the order the `Map` iterates in. */
  function KeysInOrder(ts: seq<Transaction>, cal: Calendar): seq<MonthKey> {
    if ts == [] then []
    else
      var prev := KeysInOrder(ts[..|ts| - 1], cal);
      var k := cal.KeyOf(ts[|ts| - 1]);
      if k in prev then prev else prev + [k]
  }

  /** The transactions of `ts` under key `k`, in input order (what `push` builds). */
  function Members(ts: seq<Transaction>, k: MonthKey, cal: Calendar): seq<Transaction> {
    if ts == [] then []
    else
      var t := ts[|ts| - 1];
      Members(ts[..|ts| - 1], k, cal) + (if cal.KeyOf(t) == k then [t] else [])
  }

  function GroupFor(ts: seq<Transaction>, k: MonthKey, cal: Calendar): TransactionGroup {
    TransactionGroup(k.month, k.year, Members(ts, k, cal))
  }

  /** The groups before sorting: one per key, in the `Map`'s order. */
  function Collect(ts: seq<Transaction>, cal: Calendar): (gs: seq<TransactionGroup>)
    ensures gs == [] <==> ts == []
    ensures forall i :: 0 <= i < |gs| ==> gs[i] == GroupFor(ts, KeyOfGroup(gs[i]), cal)
  {
    var ks := KeysInOrder(ts, cal);
    seq(|ks|, i requires 0 <= i < |ks| => GroupFor(ts, ks[i], cal))
  }

  /** `new Date(g.transactions[0].createdAt).getTime()`. */
  function FirstTime(g: TransactionGroup): int {
    if g.transactions == [] then 0 else g.transactions[0].createdAt
  }

  /** The comparator: later year first, and within a year the later first transaction first. */
  predicate ShownBefore(a: TransactionGroup, b: TransactionGroup) {
    a.year > b.year || (a.year == b.year && FirstTime(a) >= FirstTime(b))
  }

  predicate NewestFirst(gs: seq<TransactionGroup>) {
    forall i, j :: 0 <= i < j < |gs| ==> ShownBefore(gs[i], gs[j])
  }

  predicate GroupKeysDistinct(gs: seq<TransactionGroup>) {
    forall i, j :: 0 <= i < j < |gs| ==> KeyOfGroup(gs[i]) != KeyOfGroup(gs[j])
  }

  /** Transactions ordered by timestamp, newest first. */
  predicate TimesDescending(ts: seq<Transaction>) {
    forall i, j :: 0 <= i < j < |ts| ==> ts[i].createdAt >= ts[j].createdAt
  }

  /** The number of transactions over all groups. */
  function Total(gs: seq<TransactionGroup>): nat {
    if gs == [] then 0 else Total(gs[..|gs| - 1]) + |gs[|gs| - 1].transactions|
  }

  /**
   * Part way through moving `s[j]` left (from position `i`): the groups of `s[..i + 1]` other
   * than the moving one are in order, and the moving one is shown before everything after it.
   */
  predicate Inserting(s: seq<TransactionGroup>, i: int, j: int)
    requires 0 <= j <= i < |s|
  {
    && (forall m, n :: 0 <= m < n <= i && m != j && n != j ==> ShownBefore(s[m], s[n]))
    && (forall n :: j < n <= i ==> ShownBefore(s[j], s[n]))
  }

  /** One swap of the moving group with its left neighbour, which it is not shown after. */
  lemma InsertingStep(s: seq<TransactionGroup>, i: int, j: int)
    requires 0 < j <= i < |s|
    requires Inserting(s, i, j) && !ShownBefore(s[j - 1], s[j])
    requires GroupKeysDistinct(s)
    ensures var t := s[j - 1 := s[j]][j := s[j - 1]];
      Inserting(t, i, j - 1) && GroupKeysDistinct(t) && multiset(t) == multiset(s)
  {
    var t := s[j - 1 := s[j]][j := s[j - 1]];
    forall m, n | 0 <= m < n < |t|
      ensures KeyOfGroup(t[m]) != KeyOfGroup(t[n])
    {
      var m' := if m == j - 1 then j else if m == j then j - 1 else m;
      var n' := if n == j - 1 then j else if n == j then j - 1 else n;
      assert t[m] == s[m'] && t[n] == s[n'];
      if m' < n' {
        assert KeyOfGroup(s[m']) != KeyOfGroup(s[n']);
      } else {
        assert KeyOfGroup(s[n']) != KeyOfGroup(s[m']);
      }
    }
  }

  /** The moving group has stopped: the whole prefix `s[..i + 1]` is in order. */
  lemma InsertingDone(s: seq<TransactionGroup>, i: int, j: int)
    requires 0 <= j <= i < |s|
    requires Inserting(s, i, j) && (j == 0 || ShownBefore(s[j - 1], s[j]))
    ensures NewestFirst(s[..i + 1])
  {
    forall m, n | 0 <= m < n <= i
      ensures ShownBefore(s[m], s[n])
    {
      if n == j && m < j - 1 {
        assert ShownBefore(s[m], s[j - 1]);
      }
    }
  }

  /**
   * Moves `a[i]` left past every group it is shown before, so that `a[..i + 1]` is newest
   * first (one pass of insertion sort).
   */
  method InsertIntoPrefix(a: array<TransactionGroup>, i: int)
    modifies a
    requires 0 <= i < a.Length
    requires NewestFirst(a[..i])
    requires GroupKeysDistinct(a[..])
    ensures NewestFirst(a[..i + 1])
    ensures multiset(a[..]) == old(multiset(a[..]))
    ensures GroupKeysDistinct(a[..])
  {
    var j := i;
    assert Inserting(a[..], i, j) by {
      assert forall m :: 0 <= m < i ==> a[..i][m] == a[m];
    }
    while j > 0 && !ShownBefore(a[j - 1], a[j])
      invariant 0 <= j <= i
      invariant Inserting(a[..], i, j)
      invariant multiset(a[..]) == old(multiset(a[..]))
      invariant GroupKeysDistinct(a[..])
    {
      ghost var s := a[..];
      InsertingStep(s, i, j);
      a[j - 1], a[j] := a[j], a[j - 1];
      assert a[..] == s[j - 1 := s[j]][j := s[j - 1]];
      j := j - 1;
    }
    InsertingDone(a[..], i, j);
  }

  /** Sorts the groups in place, newest first. */
  method SortGroups(a: array<TransactionGroup>)
    modifies a
    requires GroupKeysDistinct(a[..])
    ensures NewestFirst(a[..])
    ensures multiset(a[..]) == old(multiset(a[..]))
    ensures GroupKeysDistinct(a[..])
  {
    var i := 0;
    while i < a.Length
      invariant 0 <= i <= a.Length
      invariant NewestFirst(a[..i])
      invariant multiset(a[..]) == old(multiset(a[..]))
      invariant GroupKeysDistinct(a[..])
    {
      InsertIntoPrefix(a, i);
      i := i + 1;
    }
    assert a[..a.Length] == a[..];
  }

  /**
   * The first loop of `groupTransactionsByMonth`: each transaction is pushed onto the list under
   * its key, the list being created on first sight of the key. `order` is the insertion order of
   * the keys, which is the order the `Map` iterates in.
   */
  method GroupByKey(transactions: seq<Transaction>, cal: Calendar)
    returns (order: seq<MonthKey>, grouped: map<MonthKey, seq<Transaction>>)
    ensures order == KeysInOrder(transactions, cal)
    ensures forall k :: k in grouped <==> k in order
    ensures forall k :: k in grouped ==> grouped[k] == Members(transactions, k, cal)
  {
    order := [];
    grouped := map[];
    for i := 0 to |transactions|
      invariant order == KeysInOrder(transactions[..i], cal)
      invariant forall k :: k in grouped <==> k in order
      invariant forall k :: k in grouped ==> grouped[k] == Members(transactions[..i], k, cal)
    {
      var t := transactions[i];
      var key := cal.KeyOf(t);
      assert transactions[..i + 1][..i] == transactions[..i];
      if key !in grouped {
        MembersOfAbsentKey(transactions[..i], key, cal);
        grouped := grouped[key := []];
        order := order + [key];
      }
      grouped := grouped[key := grouped[key] + [t]];
    }
    assert transactions[..|transactions|] == transactions;
  }

  /** `groupTransactionsByMonth`. */
  method GroupTransactionsByMonth(transactions: seq<Transaction>, cal: Calendar) returns (groups: seq<TransactionGroup>)
    ensures transactions == [] ==> groups == []
    ensures multiset(groups) == multiset(Collect(transactions, cal))
    ensures NewestFirst(groups)
    ensures GroupKeysDistinct(groups)
    ensures Total(groups) == |transactions|
  {
    if |transactions| == 0 {
      return [];
    }
    var order, grouped := GroupByKey(transactions, cal);
    var a := new TransactionGroup[|order|](_ => TransactionGroup("", 0, []));
    for j := 0 to |order|
      invariant forall m :: 0 <= m < j ==> a[m] == GroupFor(transactions, order[m], cal)
    {
      a[j] := TransactionGroup(order[j].month, order[j].year, grouped[order[j]]);
    }
    assert a[..] == Collect(transactions, cal);
    CollectKeysDistinct(transactions, cal);
    CollectTotal(transactions, cal);
    SortGroups(a);
    groups := a[..];
    TotalOfPermutation(groups, Collect(transactions, cal));
  }

  lemma {:induction false} MembersOfAbsentKey(ts: seq<Transaction>, k: MonthKey, cal: Calendar)
    requires k !in KeysInOrder(ts, cal)
    ensures Members(ts, k, cal) == []
  {
    if ts != [] {
      MembersOfAbsentKey(ts[..|ts| - 1], k, cal);
    }
  }

  predicate KeysDistinct(ks: seq<MonthKey>) {
    forall i, j :: 0 <= i < j < |ks| ==> ks[i] != ks[j]
  }

  lemma {:induction false} KeysInOrderDistinct(ts: seq<Transaction>, cal: Calendar)
    ensures KeysDistinct(KeysInOrder(ts, cal))
  {
    if ts != [] {
      var prev := KeysInOrder(ts[..|ts| - 1], cal);
      var k := cal.KeyOf(ts[|ts| - 1]);
      KeysInOrderDistinct(ts[..|ts| - 1], cal);
      assert KeysInOrder(ts, cal) == if k in prev then prev else prev + [k];
      if k !in prev {
        var ks := prev + [k];
        forall i, j | 0 <= i < j < |ks|
          ensures ks[i] != ks[j]
        {
          if j == |prev| {
            assert ks[i] == prev[i] && ks[j] == k;
            assert prev[i] in prev;
          } else {
            assert ks[i] == prev[i] && ks[j] == prev[j];
          }
        }
      }
    }
  }

  /** No two groups before sorting share a (year, month) key. */
  lemma CollectKeysDistinct(ts: seq<Transaction>, cal: Calendar)
    ensures GroupKeysDistinct(Collect(ts, cal))
  {
    KeysInOrderDistinct(ts, cal);
    var ks := KeysInOrder(ts, cal);
    var c := Collect(ts, cal);
    forall i, j | 0 <= i < j < |c|
      ensures KeyOfGroup(c[i]) != KeyOfGroup(c[j])
    {
      assert c[i] == GroupFor(ts, ks[i], cal) && c[j] == GroupFor(ts, ks[j], cal);
      assert ks[i] != ks[j];
      assert KeyOfGroup(c[i]) == MonthKey(ks[i].year, ks[i].month) == ks[i];
      assert KeyOfGroup(c[j]) == MonthKey(ks[j].year, ks[j].month) == ks[j];
    }
  }

  /** A key of `ts` is the key of one of its transactions, and every such key is listed. */
  lemma {:induction false} KeysInOrderMembers(ts: seq<Transaction>, cal: Calendar)
    ensures forall t :: t in ts ==> cal.KeyOf(t) in KeysInOrder(ts, cal)
    ensures forall k :: k in KeysInOrder(ts, cal) ==> exists t :: t in ts && cal.KeyOf(t) == k
  {
    if ts != [] {
      var p := ts[..|ts| - 1];
      KeysInOrderMembers(p, cal);
      assert ts == p + [ts[|ts| - 1]];
    }
  }

  /** A transaction is listed under key `k` exactly when it is in `ts` and has key `k`. */
  lemma {:induction false} MembersAreThoseWithKey(ts: seq<Transaction>, k: MonthKey, cal: Calendar)
    ensures forall t :: t in Members(ts, k, cal) <==> t in ts && cal.KeyOf(t) == k
  {
    if ts != [] {
      var p := ts[..|ts| - 1];
      MembersAreThoseWithKey(p, k, cal);
      assert ts == p + [ts[|ts| - 1]];
    }
  }

  /** Listing by key keeps the input order: from a newest-first input, each group is newest first. */
  lemma {:induction false} MembersKeepOrder(ts: seq<Transaction>, k: MonthKey, cal: Calendar)
    requires TimesDescending(ts)
    ensures TimesDescending(Members(ts, k, cal))
  {
    if ts != [] {
      var p := ts[..|ts| - 1];
      var t := ts[|ts| - 1];
      MembersKeepOrder(p, k, cal);
      MembersAreThoseWithKey(p, k, cal);
      var mp := Members(p, k, cal);
      var m := Members(ts, k, cal);
      assert m == mp + (if cal.KeyOf(t) == k then [t] else []);
      forall i, j | 0 <= i < j < |m|
        ensures m[i].createdAt >= m[j].createdAt
      {
        if j == |mp| {
          assert m[i] == mp[i] && mp[i] in mp;
          assert mp[i] in p;
          var q :| 0 <= q < |p| && p[q] == mp[i];
          assert ts[q] == m[i] && m[j] == t;
        } else {
          assert m[i] == mp[i] && m[j] == mp[j];
        }
      }
    }
  }

  lemma {:induction false} TotalUpdate(gs: seq<TransactionGroup>, q: int, g: TransactionGroup)
    requires 0 <= q < |gs|
    ensures Total(gs[q := g]) == Total(gs) - |gs[q].transactions| + |g.transactions|
  {
    var n := |gs| - 1;
    if q < n {
      TotalUpdate(gs[..n], q, g);
      assert gs[q := g][..n] == gs[..n][q := g];
    } else {
      assert gs[q := g][..n] == gs[..n];
    }
  }

  /** Appending a transaction whose key is already listed extends that key's group only. */
  lemma CollectKnownKey(ts: seq<Transaction>, cal: Calendar, q: int)
    requires ts != []
    requires 0 <= q < |KeysInOrder(ts[..|ts| - 1], cal)|
    requires KeysInOrder(ts[..|ts| - 1], cal)[q] == cal.KeyOf(ts[|ts| - 1])
    ensures Collect(ts, cal)
      == Collect(ts[..|ts| - 1], cal)[q := GroupFor(ts, cal.KeyOf(ts[|ts| - 1]), cal)]
  {
    var p := ts[..|ts| - 1];
    var k := cal.KeyOf(ts[|ts| - 1]);
    var ks := KeysInOrder(p, cal);
    KeysInOrderDistinct(p, cal);
    assert ks[q] in ks;
    assert KeysInOrder(ts, cal) == ks;
    var before := Collect(p, cal);
    var after := Collect(ts, cal);
    forall i | 0 <= i < |ks| && i != q
      ensures after[i] == before[i]
    {
      assert ks[i] != k;
      assert Members(ts, ks[i], cal) == Members(p, ks[i], cal) + [];
    }
  }

  /** Appending a transaction with a new key adds one group, holding just that transaction's key. */
  lemma CollectNewKey(ts: seq<Transaction>, cal: Calendar)
    requires ts != []
    requires cal.KeyOf(ts[|ts| - 1]) !in KeysInOrder(ts[..|ts| - 1], cal)
    ensures Collect(ts, cal) == Collect(ts[..|ts| - 1], cal) + [GroupFor(ts, cal.KeyOf(ts[|ts| - 1]), cal)]
  {
    var p := ts[..|ts| - 1];
    var k := cal.KeyOf(ts[|ts| - 1]);
    var ks := KeysInOrder(p, cal);
    assert KeysInOrder(ts, cal) == ks + [k];
    var before := Collect(p, cal);
    var after := Collect(ts, cal);
    forall i | 0 <= i < |ks|
      ensures after[i] == before[i]
    {
      assert ks[i] in ks;
      assert Members(ts, ks[i], cal) == Members(p, ks[i], cal) + [];
    }
  }

  /** Every transaction is counted once: the groups hold as many transactions as the input. */
  lemma {:induction false} CollectTotal(ts: seq<Transaction>, cal: Calendar)
    ensures Total(Collect(ts, cal)) == |ts|
  {
    if ts != [] {
      var p := ts[..|ts| - 1];
      var k := cal.KeyOf(ts[|ts| - 1]);
      var ks := KeysInOrder(p, cal);
      CollectTotal(p, cal);
      var before := Collect(p, cal);
      var g := GroupFor(ts, k, cal);
      if k in ks {
        var q :| 0 <= q < |ks| && ks[q] == k;
        CollectKnownKey(ts, cal, q);
        assert before[q] == GroupFor(p, k, cal);
        assert Members(ts, k, cal) == Members(p, k, cal) + [ts[|ts| - 1]];
        TotalUpdate(before, q, g);
      } else {
        MembersOfAbsentKey(p, k, cal);
        CollectNewKey(ts, cal);
        assert Members(ts, k, cal) == [] + [ts[|ts| - 1]];
        assert (before + [g])[..|before|] == before;
      }
    }
  }

  lemma {:induction false} TotalAppend(a: seq<TransactionGroup>, b: seq<TransactionGroup>)
    ensures Total(a + b) == Total(a) + Total(b)
  {
    if b != [] {
      var ab := a + b;
      TotalAppend(a, b[..|b| - 1]);
      assert ab[..|ab| - 1] == a + b[..|b| - 1];
      assert ab[|ab| - 1] == b[|b| - 1];
      assert Total(ab) == Total(ab[..|ab| - 1]) + |ab[|ab| - 1].transactions|;
      assert Total(b) == Total(b[..|b| - 1]) + |b[|b| - 1].transactions|;
    } else {
      assert a + b == a;
    }
  }

  /** Taking the group at `q` out of `b`: what remains, and how many transactions it holds. */
  lemma RemoveAt(b: seq<TransactionGroup>, q: int)
    requires 0 <= q < |b|
    ensures multiset(b[..q] + b[q + 1..]) == multiset(b) - multiset{b[q]}
    ensures Total(b) == Total(b[..q] + b[q + 1..]) + |b[q].transactions|
  {
    var x := b[q];
    assert b == b[..q] + [x] + b[q + 1..];
    TotalAppend(b[..q], b[q + 1..]);
    TotalAppend(b[..q] + [x], b[q + 1..]);
    TotalAppend(b[..q], [x]);
    assert Total([x]) == |x.transactions| by { assert [x][..0] == []; }
  }

  /** Reordering the groups does not change how many transactions they hold. */
  lemma {:induction false} TotalOfPermutation(a: seq<TransactionGroup>, b: seq<TransactionGroup>)
    requires multiset(a) == multiset(b)
    ensures Total(a) == Total(b)
    decreases |a|
  {
    if a == [] {
      assert |b| == |multiset(b)| == 0;
    } else {
      var n := |a| - 1;
      var x := a[n];
      assert a == a[..n] + [x];
      assert multiset(a[..n]) == multiset(a) - multiset{x};
      assert x in multiset(b);
      var q :| 0 <= q < |b| && b[q] == x;
      RemoveAt(b, q);
      TotalOfPermutation(a[..n], b[..q] + b[q + 1..]);
    }
  }

  /** A group of the result is one of `Collect`'s: the group of one of the input's keys. */
  lemma GroupIsCollected(transactions: seq<Transaction>, cal: Calendar, groups: seq<TransactionGroup>,
                         g: TransactionGroup)
    requires multiset(groups) == multiset(Collect(transactions, cal))
    requires g in groups
    ensures exists k :: k in KeysInOrder(transactions, cal) && g == GroupFor(transactions, k, cal)
  {
    var ks := KeysInOrder(transactions, cal);
    var c := Collect(transactions, cal);
    assert g in multiset(c);
    var i :| 0 <= i < |c| && c[i] == g;
    assert ks[i] in ks && g == GroupFor(transactions, ks[i], cal);
  }

  /** Every grouped transaction comes from the input and carries its group's year and month name. */
  lemma GroupsHoldTheirMonth(transactions: seq<Transaction>, cal: Calendar, groups: seq<TransactionGroup>)
    requires multiset(groups) == multiset(Collect(transactions, cal))
    ensures forall g, t :: g in groups && t in g.transactions ==>
      t in transactions && cal.KeyOf(t) == KeyOfGroup(g)
  {
    forall g, t | g in groups && t in g.transactions
      ensures t in transactions && cal.KeyOf(t) == KeyOfGroup(g)
    {
      GroupIsCollected(transactions, cal, groups, g);
      var k :| k in KeysInOrder(transactions, cal) && g == GroupFor(transactions, k, cal);
      MembersAreThoseWithKey(transactions, k, cal);
      assert KeyOfGroup(g) == MonthKey(k.year, k.month) == k;
    }
  }

  /** Every input transaction is in some group. */
  lemma EveryTransactionGrouped(transactions: seq<Transaction>, cal: Calendar, groups: seq<TransactionGroup>)
    requires multiset(groups) == multiset(Collect(transactions, cal))
    ensures forall t :: t in transactions ==> exists i :: 0 <= i < |groups| && t in groups[i].transactions
  {
    var ks := KeysInOrder(transactions, cal);
    var c := Collect(transactions, cal);
    KeysInOrderMembers(transactions, cal);
    forall t | t in transactions
      ensures exists i :: 0 <= i < |groups| && t in groups[i].transactions
    {
      var k := cal.KeyOf(t);
      var q :| 0 <= q < |ks| && ks[q] == k;
      MembersAreThoseWithKey(transactions, k, cal);
      assert t in c[q].transactions;
      assert c[q] in multiset(groups);
      var i :| 0 <= i < |groups| && groups[i] == c[q];
    }
  }

  /**
   * Each input transaction sits in exactly one group, the one whose header is its year and
   * month name.
   */
  lemma ExactlyOneGroup(transactions: seq<Transaction>, cal: Calendar, groups: seq<TransactionGroup>)
    requires multiset(groups) == multiset(Collect(transactions, cal))
    requires GroupKeysDistinct(groups)
    ensures forall t :: t in transactions ==>
      exists i :: 0 <= i < |groups| && t in groups[i].transactions && KeyOfGroup(groups[i]) == cal.KeyOf(t)
    ensures forall t, i, j ::
      (0 <= i < |groups| && 0 <= j < |groups| && t in groups[i].transactions && t in groups[j].transactions) ==> i == j
  {
    GroupsHoldTheirMonth(transactions, cal, groups);
    EveryTransactionGrouped(transactions, cal, groups);
    forall t, i, j | 0 <= i < |groups| && 0 <= j < |groups| && t in groups[i].transactions && t in groups[j].transactions
      ensures i == j
    {
      assert groups[i] in groups && groups[j] in groups;
      assert KeyOfGroup(groups[i]) == cal.KeyOf(t) == KeyOfGroup(groups[j]);
    }
    forall t | t in transactions
      ensures exists i :: 0 <= i < |groups| && t in groups[i].transactions && KeyOfGroup(groups[i]) == cal.KeyOf(t)
    {
      var i :| 0 <= i < |groups| && t in groups[i].transactions;
      assert groups[i] in groups;
    }
  }

  /** Grouping an input that is newest first gives groups that are each newest first. */
  lemma GroupsKeepInputOrder(transactions: seq<Transaction>, cal: Calendar, groups: seq<TransactionGroup>)
    requires multiset(groups) == multiset(Collect(transactions, cal))
    requires TimesDescending(transactions)
    ensures forall g :: g in groups ==> TimesDescending(g.transactions)
  {
    var ks := KeysInOrder(transactions, cal);
    var c := Collect(transactions, cal);
    forall g | g in groups
      ensures TimesDescending(g.transactions)
    {
      assert g in multiset(c);
      var q :| 0 <= q < |c| && c[q] == g;
      assert c[q] == GroupFor(transactions, ks[q], cal);
      assert g.transactions == Members(transactions, ks[q], cal);
      MembersKeepOrder(transactions, ks[q], cal);
    }
  }
}
