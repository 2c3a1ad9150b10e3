/** The top-10 customers by revenue, with their names (app.py, lines 93-113). */
module Ranking {
  import opened Sequences
  import opened Transactions
  import opened Totals

  /** How many customers `head` keeps. */
  const TopCount: nat := 10

  /** One row of `ranking_clientes`: `faturamento_total` and `numero_compras`. */
  datatype CustomerTotal = CustomerTotal(customer: int, revenue: int, purchases: nat)

  /** One row of `top_10_ranking` once NOME CLIENTE is attached. */
  datatype Ranked = Ranked(customer: int, name: string, revenue: int, purchases: nat)

  /** The aggregate of one customer's rows: the sum of their amounts and
      the number of their rows. */
  function TotalOf(rows: seq<Transaction>, c: int): (e: CustomerTotal)
    ensures e.customer == c
    ensures e.purchases <= |rows|
    ensures e.purchases > 0 <==> c in CustomerSet(rows)
  {
    var mine := RowsOf(rows, c);
    CustomerTotal(c, Revenue(mine), |mine|)
  }

  /** The aggregates of the customers `cs`, in that order. */
  function TotalsOf(rows: seq<Transaction>, cs: seq<int>): (r: seq<CustomerTotal>)
    ensures |r| == |cs|
    ensures forall i :: 0 <= i < |cs| ==> r[i] == TotalOf(rows, cs[i])
  {
    if cs == [] then [] else [TotalOf(rows, cs[0])] + TotalsOf(rows, cs[1..])
  }

  /** `groupby('COD CLIENTE').agg(...)`: one aggregate per customer, in code order. */
  function GroupTotals(rows: seq<Transaction>): (r: seq<CustomerTotal>)
    ensures |r| == NumCustomers(rows)
    ensures forall e :: e in r <==> e.customer in CustomerSet(rows) && e == TotalOf(rows, e.customer)
    ensures NoDuplicates(r)
  {
    var cs := Customers(rows);
    var r := TotalsOf(rows, cs);
    assert forall e :: e in r <==> e.customer in CustomerSet(rows) && e == TotalOf(rows, e.customer) by {
      forall e: CustomerTotal | e.customer in CustomerSet(rows) && e == TotalOf(rows, e.customer) ensures e in r {
        var i :| 0 <= i < |cs| && cs[i] == e.customer;
        assert r[i] == e;
      }
    }
    r
  }

  // ---------------------------------------------------------------------
  // The group totals add up to the portfolio totals

  function RevenueOver(rows: seq<Transaction>, cs: seq<int>): int {
    if cs == [] then 0 else Revenue(RowsOf(rows, cs[0])) + RevenueOver(rows, cs[1..])
  }

  function PurchasesOver(rows: seq<Transaction>, cs: seq<int>): int {
    if cs == [] then 0 else |RowsOf(rows, cs[0])| + PurchasesOver(rows, cs[1..])
  }

  /** Adding a row in front adds its amount and one purchase to exactly one
      customer of a duplicate-free list that holds it. */
  lemma {:induction false} OverCons(t: Transaction, rest: seq<Transaction>, cs: seq<int>)
    requires NoDuplicates(cs)
    ensures RevenueOver([t] + rest, cs) == RevenueOver(rest, cs) + if t.customer in cs then t.amount else 0
    ensures PurchasesOver([t] + rest, cs) == PurchasesOver(rest, cs) + if t.customer in cs then 1 else 0
  {
    if cs != [] {
      var rows := [t] + rest;
      assert rows[1..] == rest;
      assert RowsOf(rows, cs[0]) == if t.customer == cs[0] then [t] + RowsOf(rest, cs[0]) else RowsOf(rest, cs[0]);
      OverCons(t, rest, cs[1..]);
      assert t.customer in cs <==> t.customer == cs[0] || t.customer in cs[1..];
      assert t.customer == cs[0] ==> t.customer !in cs[1..];
    }
  }

  lemma {:induction false} OverCovers(rows: seq<Transaction>, cs: seq<int>)
    requires NoDuplicates(cs)
    requires forall c :: c in CustomerSet(rows) ==> c in cs
    ensures RevenueOver(rows, cs) == Revenue(rows)
    ensures PurchasesOver(rows, cs) == |rows|
  {
    if rows == [] {
      OverEmpty(cs);
    } else {
      var t, rest := rows[0], rows[1..];
      assert rows == [t] + rest;
      CustomerSetCons(rows);
      OverCovers(rest, cs);
      OverCons(t, rest, cs);
    }
  }

  lemma {:induction false} OverEmpty(cs: seq<int>)
    ensures RevenueOver([], cs) == 0 && PurchasesOver([], cs) == 0
  {
    if cs != [] {
      OverEmpty(cs[1..]);
    }
  }

  function TotalRevenue(totals: seq<CustomerTotal>): int {
    if totals == [] then 0 else totals[0].revenue + TotalRevenue(totals[1..])
  }

  function TotalPurchases(totals: seq<CustomerTotal>): int {
    if totals == [] then 0 else totals[0].purchases + TotalPurchases(totals[1..])
  }

  lemma {:induction false} GroupSums(rows: seq<Transaction>, cs: seq<int>)
    ensures TotalRevenue(TotalsOf(rows, cs)) == RevenueOver(rows, cs)
    ensures TotalPurchases(TotalsOf(rows, cs)) == PurchasesOver(rows, cs)
  {
    if cs != [] {
      GroupSums(rows, cs[1..]);
      assert TotalsOf(rows, cs)[1..] == TotalsOf(rows, cs[1..]);
    }
  }

  /** The per-customer sums and counts add up to `faturamento_total` and
      `num_compras`: every row is counted for exactly one customer. */
  lemma GroupTotalsPartition(rows: seq<Transaction>)
    ensures TotalRevenue(GroupTotals(rows)) == Revenue(rows)
    ensures TotalPurchases(GroupTotals(rows)) == |rows|
  {
    var cs := Customers(rows);
    GroupSums(rows, cs);
    OverCovers(rows, cs);
  }

  // ---------------------------------------------------------------------
  // Names

  /** Some row of customer `c` carries the name `name`. */
  ghost predicate NamedIn(rows: seq<Transaction>, c: int, name: string) {
    exists t :: t in rows && t.customer == c && t.name == name
  }

  /** The `[['COD CLIENTE', 'NOME']]` pairs, row by row. */
  function NamePairs(rows: seq<Transaction>): seq<(int, string)> {
    seq(|rows|, i requires 0 <= i < |rows| => (rows[i].customer, rows[i].name))
  }

  function PairCodes(pairs: seq<(int, string)>): set<int> {
    set p | p in pairs :: p.0
  }

  /** `set_index(...).to_dict()`: a later pair overwrites an earlier one with
      the same code. */
  function NameMap(pairs: seq<(int, string)>): (m: map<int, string>)
    ensures m.Keys == PairCodes(pairs)
    ensures forall c :: c in m ==> (c, m[c]) in pairs
    ensures forall j :: 0 <= j < |pairs| && (forall k :: j < k < |pairs| ==> pairs[k].0 != pairs[j].0) ==>
      m[pairs[j].0] == pairs[j].1
  {
    if pairs == [] then map[]
    else
      var init, last := pairs[..|pairs| - 1], pairs[|pairs| - 1];
      assert pairs == init + [last];
      NameMap(init)[last.0 := last.1]
  }

  /** The position of the last pair with code `c`. */
  function LastWithCode(pairs: seq<(int, string)>, c: int): (j: nat)
    requires c in PairCodes(pairs)
    ensures j < |pairs| && pairs[j].0 == c
    ensures forall k :: j < k < |pairs| ==> pairs[k].0 != c
  {
    var n := |pairs| - 1;
    if pairs[n].0 == c then n
    else
      var init := pairs[..n];
      assert pairs == init + [pairs[n]];
      assert c in PairCodes(init);
      LastWithCode(init, c)
  }

  /** `cliente_mapping`: every customer of the selection gets one of the
      names found on their own rows. */
  function ClientMapping(rows: seq<Transaction>): (m: map<int, string>)
    ensures m.Keys == CustomerSet(rows)
    ensures forall c :: c in m ==> NamedIn(rows, c, m[c])
  {
    var pairs := NamePairs(rows);
    var kept := DropDuplicates(pairs);
    var m := NameMap(kept);
    PairsOfRows(rows, kept);
    m
  }

  /** Pairs drawn from the rows have the rows' codes, and every pair is the
      code and name of some row. */
  lemma PairsOfRows(rows: seq<Transaction>, kept: seq<(int, string)>)
    requires forall p :: p in kept <==> p in NamePairs(rows)
    ensures PairCodes(kept) == CustomerSet(rows)
    ensures forall p :: p in kept ==> NamedIn(rows, p.0, p.1)
  {
    var pairs := NamePairs(rows);
    forall c | c in CustomerSet(rows) ensures c in PairCodes(kept) {
      var t :| t in rows && t.customer == c;
      var i :| 0 <= i < |rows| && rows[i] == t;
      assert pairs[i] in pairs;
    }
    forall p | p in kept ensures NamedIn(rows, p.0, p.1) {
      var i :| 0 <= i < |pairs| && pairs[i] == p;
      assert rows[i] in rows;
    }
  }

  /** The name a customer gets is the one whose first appearance among that
      customer's rows comes last: `drop_duplicates` keeps the first row of
      each (code, name) pair and `to_dict` keeps the last kept pair per code. */
  lemma NameRule(rows: seq<Transaction>, c: int, q: (int, string))
    requires c in CustomerSet(rows) && q in NamePairs(rows) && q.0 == c
    ensures (c, ClientMapping(rows)[c]) in NamePairs(rows)
    ensures FirstIndex(NamePairs(rows), q) <= FirstIndex(NamePairs(rows), (c, ClientMapping(rows)[c]))
  {
    var pairs := NamePairs(rows);
    var kept := DropDuplicates(pairs);
    assert q in kept;
    var j := LastWithCode(kept, c);
    assert NameMap(kept)[c] == kept[j].1;
    assert kept[j] == (c, ClientMapping(rows)[c]);
    var i :| 0 <= i < |kept| && kept[i] == q;
    assert i <= j;
  }

  // ---------------------------------------------------------------------
  // The ranking

  function ByRevenueDescending(e: CustomerTotal): Key {
    Key(-e.revenue, 0)
  }

  function ByRevenueAscending(e: Ranked): Key {
    Key(e.revenue, 0)
  }

  /** `sort_values(by='faturamento_total', ascending=False)`. */
  function RevenueRanking(rows: seq<Transaction>): (r: seq<CustomerTotal>)
    ensures multiset(r) == multiset(GroupTotals(rows))
    ensures forall i, j :: 0 <= i < j < |r| ==> r[i].revenue >= r[j].revenue
  {
    SortBy(GroupTotals(rows), ByRevenueDescending)
  }

  /** `head(10)`. */
  function Head(rows: seq<Transaction>): (r: seq<CustomerTotal>)
    ensures |r| == if NumCustomers(rows) < TopCount then NumCustomers(rows) else TopCount
  {
    var ranking := RevenueRanking(rows);
    ranking[..if |ranking| < TopCount then |ranking| else TopCount]
  }

  /** NOME CLIENTE attached through `map(cliente_mapping)`. */
  function AttachNames(top: seq<CustomerTotal>, names: map<int, string>): (r: seq<Ranked>)
    requires forall e :: e in top ==> e.customer in names
    ensures |r| == |top|
    ensures forall i :: 0 <= i < |r| ==>
      r[i].customer == top[i].customer && r[i].revenue == top[i].revenue && r[i].purchases == top[i].purchases
    ensures forall i :: 0 <= i < |r| ==> r[i].customer in names && r[i].name == names[r[i].customer]
  {
    seq(|top|, i requires 0 <= i < |top| =>
      assert top[i] in top; Ranked(top[i].customer, names[top[i].customer], top[i].revenue, top[i].purchases))
  }

  /** The row the ranking shows for customer `c`. */
  function EntryOf(rows: seq<Transaction>, c: int): Ranked
    requires c in CustomerSet(rows)
  {
    var total := TotalOf(rows, c);
    Ranked(c, ClientMapping(rows)[c], total.revenue, total.purchases)
  }

  lemma HeadEntries(rows: seq<Transaction>)
    ensures forall e :: e in Head(rows) ==> e.customer in CustomerSet(rows) && e == TotalOf(rows, e.customer)
    ensures NoDuplicates(Head(rows))
  {
    var ranking := RevenueRanking(rows);
    PermutationNoDuplicates(GroupTotals(rows), ranking);
    forall e | e in Head(rows) ensures e.customer in CustomerSet(rows) && e == TotalOf(rows, e.customer) {
      assert e in ranking;
      assert e in multiset(GroupTotals(rows));
    }
  }

  /** In a list ordered by descending revenue, an entry outside the first
      `n` has no more revenue than any of them. */
  lemma PrefixDominates(ranking: seq<CustomerTotal>, n: nat, out: CustomerTotal)
    requires n <= |ranking| && out in ranking
    requires forall i, j :: 0 <= i < j < |ranking| ==> ranking[i].revenue >= ranking[j].revenue
    requires forall i :: 0 <= i < n ==> ranking[i] != out
    ensures forall i :: 0 <= i < n ==> out.revenue <= ranking[i].revenue
  {
    var j :| 0 <= j < |ranking| && ranking[j] == out;
    assert j >= n;
  }

  lemma RankingHasEveryCustomer(rows: seq<Transaction>, c: int)
    requires c in CustomerSet(rows)
    ensures TotalOf(rows, c) in RevenueRanking(rows)
  {
    var ranking := RevenueRanking(rows);
    assert TotalOf(rows, c) in GroupTotals(rows);
    assert TotalOf(rows, c) in multiset(ranking);
  }

  /** A customer left out of `head(10)` has no more revenue than any customer in it. */
  lemma HeadDominates(rows: seq<Transaction>, c: int)
    requires c in CustomerSet(rows)
    requires forall e :: e in Head(rows) ==> e.customer != c
    ensures forall e :: e in Head(rows) ==> TotalOf(rows, c).revenue <= e.revenue
  {
    var ranking := RevenueRanking(rows);
    var top := Head(rows);
    var out := TotalOf(rows, c);
    RankingHasEveryCustomer(rows, c);
    assert top == ranking[..|top|];
    forall i | 0 <= i < |top| ensures ranking[i] != out {
      assert top[i] in top;
    }
    PrefixDominates(ranking, |top|, out);
    forall e | e in top ensures out.revenue <= e.revenue {
      var i :| 0 <= i < |top| && top[i] == e;
    }
  }

  /** `top_10_ranking` once NOME CLIENTE is attached, still in `head` order. */
  function NamedHead(rows: seq<Transaction>): (r: seq<Ranked>)
    ensures |r| == |Head(rows)|
    ensures forall m :: 0 <= m < |r| ==> r[m].customer == Head(rows)[m].customer
    ensures forall m :: 0 <= m < |r| ==> r[m].customer in CustomerSet(rows) && r[m] == EntryOf(rows, r[m].customer)
  {
    var top := Head(rows);
    HeadEntries(rows);
    var r := AttachNames(top, ClientMapping(rows));
    AttachedEntries(rows, top, r);
    r
  }

  /** Naming the true aggregates of selected customers gives their entries. */
  lemma AttachedEntries(rows: seq<Transaction>, top: seq<CustomerTotal>, r: seq<Ranked>)
    requires forall e :: e in top ==> e.customer in CustomerSet(rows) && e == TotalOf(rows, e.customer)
    requires r == AttachNames(top, ClientMapping(rows))
    ensures forall m :: 0 <= m < |r| ==> r[m].customer in CustomerSet(rows) && r[m] == EntryOf(rows, r[m].customer)
  {
    forall m | 0 <= m < |r| ensures r[m].customer in CustomerSet(rows) && r[m] == EntryOf(rows, r[m].customer) {
      assert top[m] in top;
    }
  }

  /** `top_10_ranking` as charted: the ten best customers, ascending by revenue. */
  function TopCustomers(rows: seq<Transaction>): (r: seq<Ranked>)
    ensures |r| == if NumCustomers(rows) < TopCount then NumCustomers(rows) else TopCount
    ensures multiset(r) == multiset(NamedHead(rows))
    ensures forall i, j :: 0 <= i < j < |r| ==> r[i].revenue <= r[j].revenue
  {
    SortBy(NamedHead(rows), ByRevenueAscending)
  }

  /** The set of customers the ranking shows. */
  ghost function RankedCodes(r: seq<Ranked>): set<int> {
    set x | x in r :: x.customer
  }

  /** The set of customers `head(10)` keeps. */
  ghost function HeadCodes(rows: seq<Transaction>): set<int> {
    set e | e in Head(rows) :: e.customer
  }

  lemma NamedHeadEntries(rows: seq<Transaction>)
    ensures forall x :: x in NamedHead(rows) ==> x.customer in CustomerSet(rows) && x == EntryOf(rows, x.customer)
  {
    var named := NamedHead(rows);
    forall x | x in named ensures x.customer in CustomerSet(rows) && x == EntryOf(rows, x.customer) {
      var m :| 0 <= m < |named| && named[m] == x;
    }
  }

  lemma NamedHeadDistinct(rows: seq<Transaction>)
    ensures NoDuplicates(NamedHead(rows))
  {
    var top := Head(rows);
    HeadEntries(rows);
    var named := NamedHead(rows);
    forall i, j | 0 <= i < j < |named| ensures named[i] != named[j] {
      assert named[i].customer == top[i].customer && named[j].customer == top[j].customer;
      assert top[i] in top && top[j] in top;
    }
  }

  lemma NamedHeadCodes(rows: seq<Transaction>)
    ensures RankedCodes(NamedHead(rows)) == HeadCodes(rows)
  {
    SameCodes(NamedHead(rows), Head(rows));
  }

  /** Two lists with the same customer at every position have the same customers. */
  lemma SameCodes(named: seq<Ranked>, top: seq<CustomerTotal>)
    requires |named| == |top|
    requires forall m :: 0 <= m < |named| ==> named[m].customer == top[m].customer
    ensures RankedCodes(named) == set e | e in top :: e.customer
  {
    forall c | c in RankedCodes(named) ensures c in set e | e in top :: e.customer {
      var m :| 0 <= m < |named| && named[m].customer == c;
      assert top[m] in top;
    }
    forall c | c in (set e | e in top :: e.customer) ensures c in RankedCodes(named) {
      var m :| 0 <= m < |top| && top[m].customer == c;
      assert named[m] in named;
    }
  }

  /** Every row of the chart is its customer's own revenue sum and row
      count, and the chart shows exactly the customers of `head(10)`. */
  lemma TopEntries(rows: seq<Transaction>)
    ensures forall x :: x in TopCustomers(rows) ==> x.customer in CustomerSet(rows) && x == EntryOf(rows, x.customer)
    ensures RankedCodes(TopCustomers(rows)) == HeadCodes(rows)
  {
    NamedHeadEntries(rows);
    NamedHeadCodes(rows);
    PermutedRanking(TopCustomers(rows), NamedHead(rows));
  }

  /** Reordering a ranking keeps its rows and its customers. */
  lemma PermutedRanking(a: seq<Ranked>, b: seq<Ranked>)
    requires multiset(a) == multiset(b)
    ensures forall x :: x in a <==> x in b
    ensures RankedCodes(a) == RankedCodes(b)
  {
    PermutationMembers(a, b);
  }

  /** Every charted name is the name of one of that customer's rows. */
  lemma TopNames(rows: seq<Transaction>)
    ensures forall x :: x in TopCustomers(rows) ==> NamedIn(rows, x.customer, x.name)
  {
    TopEntries(rows);
  }

  /** No customer appears twice in the chart. */
  lemma TopDistinct(rows: seq<Transaction>)
    ensures var r := TopCustomers(rows);
      forall i, j :: 0 <= i < j < |r| ==> r[i].customer != r[j].customer
  {
    var r := TopCustomers(rows);
    NamedHeadEntries(rows);
    TopEntries(rows);
    NamedHeadDistinct(rows);
    PermutationNoDuplicates(NamedHead(rows), r);
    forall i, j | 0 <= i < j < |r| ensures r[i].customer != r[j].customer {
      assert r[i] in r && r[j] in r;
    }
  }

  /** Every charted customer has at least the revenue of every customer left out. */
  lemma TopDominates(rows: seq<Transaction>)
    ensures var r := TopCustomers(rows);
      forall x, c :: x in r && c in CustomerSet(rows) && c !in RankedCodes(r) ==>
        TotalOf(rows, c).revenue <= x.revenue
  {
    var r := TopCustomers(rows);
    TopEntries(rows);
    HeadEntries(rows);
    forall x, c | x in r && c in CustomerSet(rows) && c !in RankedCodes(r)
      ensures TotalOf(rows, c).revenue <= x.revenue
    {
      assert forall e :: e in Head(rows) ==> e.customer != c;
      HeadDominates(rows, c);
      assert x.customer in HeadCodes(rows);
      var e :| e in Head(rows) && e.customer == x.customer;
    }
  }
}
