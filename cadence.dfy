/** The mean time between consecutive purchases of the same customer
    (app.py, lines 80-91). */
module Cadence {
  import opened Sequences
  import opened Transactions
  import opened Totals

  function CustomerThenDay(t: Transaction): Key {
    Key(t.customer, t.day)
  }

  /** `data_sorted`: the selection ordered by customer, then by sale date. */
  function SortedByCustomerDay(rows: seq<Transaction>): (r: seq<Transaction>)
    ensures multiset(r) == multiset(rows)
    ensures forall i, j :: 0 <= i < j < |r| ==>
      r[i].customer < r[j].customer || (r[i].customer == r[j].customer && r[i].day <= r[j].day)
  {
    SortBy(rows, CustomerThenDay)
  }

  /** The rows of each customer are contiguous, customers ascending. */
  predicate GroupedByCustomer(rows: seq<Transaction>) {
    forall i, j :: 0 <= i < j < |rows| ==> rows[i].customer <= rows[j].customer
  }

  /** Entry `i` of the DIFF column: the days since the previous row when that
      row belongs to the same customer, NaT (None) at a customer's first row. */
  function GapAt(sorted: seq<Transaction>, i: int): (r: Option<int>)
    requires 0 <= i < |sorted|
    ensures r.Some? ==> 0 < i && sorted[i - 1].customer == sorted[i].customer && sorted[i - 1].day + r.value == sorted[i].day
  {
    if i > 0 && sorted[i - 1].customer == sorted[i].customer
    then Some(sorted[i].day - sorted[i - 1].day)
    else None
  }

  /** The DIFF column, `groupby('COD CLIENTE')['DATA VENDA'].diff()`. */
  function DiffColumn(sorted: seq<Transaction>): (r: seq<Option<int>>)
    ensures |r| == |sorted|
  {
    seq(|sorted|, i requires 0 <= i < |sorted| => GapAt(sorted, i))
  }

  /** Once the rows are grouped by customer, the DIFF entry of a row is
      missing exactly at that customer's first row; otherwise it is the
      days since the customer's previous purchase. */
  lemma DiffMeaning(sorted: seq<Transaction>, i: int)
    requires GroupedByCustomer(sorted) && 0 <= i < |sorted|
    ensures DiffColumn(sorted)[i].None? <==> sorted[i].customer !in CustomerSet(sorted[..i])
    ensures DiffColumn(sorted)[i].Some? ==>
      sorted[i - 1].customer == sorted[i].customer && sorted[i - 1].day + DiffColumn(sorted)[i].value == sorted[i].day
  {
    if i > 0 {
      assert sorted[..i][i - 1] == sorted[i - 1];
    }
    if sorted[i].customer in CustomerSet(sorted[..i]) {
      var t :| t in sorted[..i] && t.customer == sorted[i].customer;
      var k :| 0 <= k < i && sorted[..i][k] == t;
      assert sorted[k].customer <= sorted[i - 1].customer;
    }
  }

  /** `r` holds every non-missing value of `d` exactly as often as `d` does. */
  ghost predicate KeepsPresent(r: seq<int>, d: seq<Option<int>>) {
    forall x :: multiset(r)[x] == multiset(d)[Some(x)]
  }

  /** The non-missing entries of a column, in order: what `mean` averages. */
  function Present(d: seq<Option<int>>): (r: seq<int>)
    ensures |r| <= |d|
    ensures forall x :: x in r <==> Some(x) in d
  {
    if d == [] then []
    else
      var init, last := d[..|d| - 1], d[|d| - 1];
      assert d == init + [last];
      Present(init) + if last.Some? then [last.value] else []
  }

  /** `mean` skips exactly the missing entries: every non-missing value is
      kept as often as it occurs. */
  lemma {:induction false} PresentKeepsAll(d: seq<Option<int>>)
    ensures KeepsPresent(Present(d), d)
  {
    if d != [] {
      var init, last := d[..|d| - 1], d[|d| - 1];
      assert d == init + [last];
      PresentKeepsAll(init);
    }
  }

  function Total(xs: seq<int>): int {
    if xs == [] then 0 else Total(xs[..|xs| - 1]) + xs[|xs| - 1]
  }

  lemma {:induction false} TotalNonNegative(xs: seq<int>)
    requires forall x :: x in xs ==> x >= 0
    ensures Total(xs) >= 0
  {
    if xs != [] {
      var init := xs[..|xs| - 1];
      assert forall x :: x in init ==> x in xs;
      TotalNonNegative(init);
      assert xs[|xs| - 1] in xs;
    }
  }

  /** Rows ordered by customer and date never give a negative gap. */
  lemma GapsNonNegative(sorted: seq<Transaction>)
    requires forall i, j :: 0 <= i < j < |sorted| ==>
      sorted[i].customer < sorted[j].customer || (sorted[i].customer == sorted[j].customer && sorted[i].day <= sorted[j].day)
    ensures forall x :: x in Present(DiffColumn(sorted)) ==> x >= 0
  {
    forall x | x in Present(DiffColumn(sorted)) ensures x >= 0 {
      var i :| 0 <= i < |sorted| && DiffColumn(sorted)[i] == Some(x);
      assert GapAt(sorted, i) == Some(x);
    }
  }

  lemma PresentSnoc(d: seq<Option<int>>, x: Option<int>)
    ensures Present(d + [x]) == Present(d) + if x.Some? then [x.value] else []
  {
    assert (d + [x])[..|d|] == d;
  }

  lemma DiffColumnSnoc(sorted: seq<Transaction>)
    requires sorted != []
    ensures DiffColumn(sorted) == DiffColumn(sorted[..|sorted| - 1]) + [GapAt(sorted, |sorted| - 1)]
  {
  }

  /** In rows ordered by customer, a last row without a gap brings a
      customer not seen before. */
  lemma FirstRowOfCustomer(init: seq<Transaction>, t: Transaction)
    requires forall i :: 0 <= i < |init| ==> init[i].customer <= t.customer
    requires init != [] ==> init[|init| - 1].customer != t.customer
    requires forall i, j :: 0 <= i < j < |init| ==> init[i].customer <= init[j].customer
    ensures t.customer !in CustomerSet(init)
  {
    forall u | u in init ensures u.customer != t.customer {
      var i :| 0 <= i < |init| && init[i] == u;
      assert init[i].customer <= init[|init| - 1].customer;
    }
  }

  lemma CustomerSetLast(sorted: seq<Transaction>)
    requires sorted != []
    ensures CustomerSet(sorted) == CustomerSet(sorted[..|sorted| - 1]) + {sorted[|sorted| - 1].customer}
  {
    var n := |sorted| - 1;
    assert sorted == sorted[..n] + [sorted[n]];
    CustomerSetSnoc(sorted[..n], sorted[n]);
  }

  /** A last row with a gap repeats the customer of the row before it. */
  lemma LastRowRepeats(sorted: seq<Transaction>)
    requires |sorted| >= 2
    requires sorted[|sorted| - 2].customer == sorted[|sorted| - 1].customer
    ensures CustomerSet(sorted) == CustomerSet(sorted[..|sorted| - 1])
  {
    var n := |sorted| - 1;
    var init := sorted[..n];
    CustomerSetLast(sorted);
    assert init[n - 1] in init;
  }

  /** A last row without a gap, in rows ordered by customer, brings a new
      customer. */
  lemma LastRowIsNew(sorted: seq<Transaction>)
    requires sorted != []
    requires forall i, j :: 0 <= i < j < |sorted| ==> sorted[i].customer <= sorted[j].customer
    requires GapAt(sorted, |sorted| - 1).None?
    ensures sorted[|sorted| - 1].customer !in CustomerSet(sorted[..|sorted| - 1])
  {
    var n := |sorted| - 1;
    var init, t := sorted[..n], sorted[n];
    assert forall i :: 0 <= i < |init| ==> init[i].customer <= t.customer by {
      forall i | 0 <= i < |init| ensures init[i].customer <= t.customer {
        assert init[i] == sorted[i];
      }
    }
    assert forall i, j :: 0 <= i < j < |init| ==> init[i].customer <= init[j].customer by {
      forall i, j | 0 <= i < j < |init| ensures init[i].customer <= init[j].customer {
        assert init[i] == sorted[i] && init[j] == sorted[j];
      }
    }
    FirstRowOfCustomer(init, t);
  }

  /** The last row adds a customer to those before it exactly when it has
      no gap. */
  lemma LastRowCustomers(sorted: seq<Transaction>)
    requires sorted != []
    requires forall i, j :: 0 <= i < j < |sorted| ==> sorted[i].customer <= sorted[j].customer
    ensures var n := |sorted| - 1;
      |CustomerSet(sorted)| == |CustomerSet(sorted[..n])| + if GapAt(sorted, n).Some? then 0 else 1
  {
    var n := |sorted| - 1;
    if GapAt(sorted, n).Some? {
      LastRowRepeats(sorted);
    } else {
      CustomerSetLast(sorted);
      LastRowIsNew(sorted);
    }
  }

  /** After sorting by customer every customer's first row is the only row
      without a gap, so there are as many gaps as rows minus customers. */
  lemma {:induction false} GapCount(sorted: seq<Transaction>)
    requires forall i, j :: 0 <= i < j < |sorted| ==> sorted[i].customer <= sorted[j].customer
    ensures |Present(DiffColumn(sorted))| == |sorted| - |CustomerSet(sorted)|
  {
    if sorted != [] {
      var n := |sorted| - 1;
      GapCount(sorted[..n]);
      DiffColumnSnoc(sorted);
      PresentSnoc(DiffColumn(sorted[..n]), GapAt(sorted, n));
      LastRowCustomers(sorted);
    }
  }

  /** A gap is only ever recorded for a customer with at least two purchases. */
  lemma GapNeedsTwoPurchases(sorted: seq<Transaction>, i: int)
    requires 0 <= i < |sorted| && DiffColumn(sorted)[i].Some?
    ensures |RowsOf(sorted, sorted[i].customer)| >= 2
  {
    var c := sorted[i].customer;
    var mine := RowsOf(sorted, c);
    assert GapAt(sorted, i).Some?;
    var a, b := sorted[i - 1], sorted[i];
    if a == b {
      RepeatedMultiplicity(sorted, i - 1, i);
      assert multiset(mine)[b] >= 2;
    } else {
      assert a in mine && b in mine;
    }
  }

  lemma FloorDivision(a: int, b: int)
    requires a >= 0 && b > 0
    ensures a / b >= 0 && (a / b) * b <= a < (a / b + 1) * b
  {
  }

  /** The sum of every gap in the DIFF column: never negative, and zero
      when no customer bought twice. */
  function TotalGap(rows: seq<Transaction>): (r: int)
    ensures r >= 0
    ensures NumCustomers(rows) == |rows| ==> r == 0
  {
    var sorted := SortedByCustomerDay(rows);
    var gaps := Present(DiffColumn(sorted));
    GapCount(sorted);
    CustomerSetPermutation(sorted, rows);
    GapsNonNegative(sorted);
    TotalNonNegative(gaps);
    Total(gaps)
  }

  /** `tempo_medio_compras.days`: the pooled mean of all gaps, floored to whole
      days; NaT (None) when no customer bought twice. */
  function MeanGapDays(rows: seq<Transaction>): (r: Option<int>)
    ensures r.None? <==> NumCustomers(rows) == |rows|
    ensures r.Some? ==> r.value >= 0
    ensures r.Some? ==>
      var pairs := |rows| - NumCustomers(rows);
      r.value == TotalGap(rows) / pairs && r.value * pairs <= TotalGap(rows) < (r.value + 1) * pairs
  {
    var sorted := SortedByCustomerDay(rows);
    var gaps := Present(DiffColumn(sorted));
    GapCount(sorted);
    CustomerSetPermutation(sorted, rows);
    assert |gaps| == |rows| - NumCustomers(rows);
    GapsNonNegative(sorted);
    TotalNonNegative(gaps);
    if gaps == [] then None
    else
      FloorDivision(Total(gaps), |gaps|);
      Some(Total(gaps) / |gaps|)
  }

  /** `tempo_medio_compras.days // 30`: the mean gap in whole months. */
  function MeanGapMonths(rows: seq<Transaction>): (r: Option<int>)
    ensures r.Some? <==> MeanGapDays(rows).Some?
    ensures r.Some? ==> 0 <= r.value && 30 * r.value <= MeanGapDays(rows).value < 30 * r.value + 30
  {
    match MeanGapDays(rows)
    case None => None
    case Some(days) => Some(days / 30)
  }
}
