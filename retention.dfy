/** Yearly retention: the share of a year's customers who bought more than
    once in that year (app.py, lines 141-158). */
module Retention {
  import opened Sequences
  import opened Transactions

  /** One row of `retencao_df`: a year and its retention rate in percent. */
  datatype RetentionPoint = RetentionPoint(year: int, rate: real)

  /** The `ANO VENDA` column; `yearOf` maps a day number to its calendar
      year. Its values are exactly the years with a sale. */
  function YearColumn(rows: seq<Transaction>, yearOf: int -> int): (r: seq<int>)
    ensures |r| == |rows|
    ensures forall y :: y in r <==> CustomersIn(rows, yearOf, y) != {}
  {
    var r := seq(|rows|, i requires 0 <= i < |rows| => yearOf(rows[i].day));
    YearsWithSales(rows, yearOf, r);
    r
  }

  lemma YearsWithSales(rows: seq<Transaction>, yearOf: int -> int, r: seq<int>)
    requires |r| == |rows| && forall i :: 0 <= i < |rows| ==> r[i] == yearOf(rows[i].day)
    ensures forall y :: y in r <==> CustomersIn(rows, yearOf, y) != {}
  {
    forall y | y in r ensures CustomersIn(rows, yearOf, y) != {} {
      var i :| 0 <= i < |rows| && r[i] == y;
      assert rows[i].customer in CustomersIn(rows, yearOf, y);
    }
    forall y | CustomersIn(rows, yearOf, y) != {} ensures y in r {
      var c :| c in CustomersIn(rows, yearOf, y);
      var t :| t in rows && yearOf(t.day) == y && t.customer == c;
      var i :| 0 <= i < |rows| && rows[i] == t;
      assert r[i] == y;
    }
  }

  /** The number of rows customer `c` has in year `y`. */
  function PairCount(rows: seq<Transaction>, yearOf: int -> int, y: int, c: int): nat {
    |Filter(rows, (t: Transaction) => yearOf(t.day) == y && t.customer == c)|
  }

  /** `clientes_por_ano[y]` counts this set: the selected customers with at
      least one row in year `y`. */
  function CustomersIn(rows: seq<Transaction>, yearOf: int -> int, y: int): (r: set<int>)
    ensures r <= CustomerSet(rows)
    ensures forall c :: c in r <==> PairCount(rows, yearOf, y, c) >= 1
  {
    var r := set t | t in rows && yearOf(t.day) == y :: t.customer;
    forall c ensures c in r <==> PairCount(rows, yearOf, y, c) >= 1 {
      var mine := Filter(rows, (t: Transaction) => yearOf(t.day) == y && t.customer == c);
      if c in r {
        var t :| t in rows && yearOf(t.day) == y && t.customer == c;
        assert t in mine;
      }
      if |mine| >= 1 {
        assert mine[0] in mine;
      }
    }
    r
  }

  /** The years of the selection, ascending: the index of the group-by. */
  function Years(rows: seq<Transaction>, yearOf: int -> int): (r: seq<int>)
    ensures StrictlyIncreasing(r)
    ensures forall y :: y in r <==> CustomersIn(rows, yearOf, y) != {}
  {
    SortedDistinct(YearColumn(rows, yearOf))
  }

  /** `duplicated(subset=['ANO VENDA', 'COD CLIENTE'], keep=False)`: every row
      whose year and customer also occur on another row. */
  function Duplicated(rows: seq<Transaction>, yearOf: int -> int): (r: seq<Transaction>)
    ensures IsSubsequence(r, rows)
    ensures forall t :: t in r <==> t in rows && PairCount(rows, yearOf, yearOf(t.day), t.customer) >= 2
  {
    Filter(rows, (t: Transaction) => PairCount(rows, yearOf, yearOf(t.day), t.customer) >= 2)
  }

  /** `clientes_recorrentes_por_ano[y]` counts this set: a customer is
      returning in a year exactly when they bought at least twice in it, and
      the returning customers are among the year's customers. */
  function ReturningIn(rows: seq<Transaction>, yearOf: int -> int, y: int): (r: set<int>)
    ensures forall c :: c in r <==> PairCount(rows, yearOf, y, c) >= 2
    ensures r <= CustomersIn(rows, yearOf, y)
  {
    var dup := Duplicated(rows, yearOf);
    var r := set t | t in dup && yearOf(t.day) == y :: t.customer;
    forall c ensures c in r <==> PairCount(rows, yearOf, y, c) >= 2 {
      var mine := Filter(rows, (t: Transaction) => yearOf(t.day) == y && t.customer == c);
      if |mine| >= 2 {
        assert mine[0] in mine;
        assert mine[0] in dup;
      }
      if c in r {
        var t :| t in dup && yearOf(t.day) == y && t.customer == c;
        assert t in rows;
      }
    }
    r
  }

  lemma ReturningSubset(rows: seq<Transaction>, yearOf: int -> int, y: int)
    ensures |ReturningIn(rows, yearOf, y)| <= |CustomersIn(rows, yearOf, y)|
  {
    SubsetCard(ReturningIn(rows, yearOf, y), CustomersIn(rows, yearOf, y));
  }

  /** A positive fraction no larger than one. */
  lemma Fraction(a: real, b: real)
    requires 0.0 < a <= b
    ensures 0.0 < a / b <= 1.0
    ensures a / b * b == a
    ensures a / b == 1.0 <==> a == b
  {
    var q := a / b;
    assert q * b == a;
    assert q > 0.0;
    assert b / b == 1.0;
    assert q <= b / b;
  }

  /** The percentage of `unique` customers that are returning; a year
      without returning customers is NaN in the division and 0 after
      `fillna(0)`. */
  function Rate(returning: nat, unique: nat): (r: real)
    requires returning <= unique
    ensures 0.0 <= r <= 100.0
    ensures r == 0.0 <==> returning == 0
    ensures r * unique as real == 100.0 * returning as real
    ensures unique > 0 ==> (r == 100.0 <==> returning == unique)
  {
    if returning == 0 then 0.0
    else
      Fraction(returning as real, unique as real);
      returning as real / unique as real * 100.0
  }

  /** The retention point of year `y`: the percentage of that year's
      customers who bought at least twice in it. */
  function Point(rows: seq<Transaction>, yearOf: int -> int, y: int): (p: RetentionPoint)
    ensures p.year == y && 0.0 <= p.rate <= 100.0
    ensures p.rate == 0.0 <==> ReturningIn(rows, yearOf, y) == {}
  {
    var returning, unique := ReturningIn(rows, yearOf, y), CustomersIn(rows, yearOf, y);
    ReturningSubset(rows, yearOf, y);
    assert |returning| == 0 <==> returning == {};
    RetentionPoint(y, Rate(|returning|, |unique|))
  }

  /** `retencao_df`: one point per year of the selection, years ascending,
      rates between 0 and 100 percent. */
  function RetentionByYear(rows: seq<Transaction>, yearOf: int -> int): (r: seq<RetentionPoint>)
    ensures forall i, j :: 0 <= i < j < |r| ==> r[i].year < r[j].year
    ensures forall y :: (exists i :: 0 <= i < |r| && r[i].year == y) <==> CustomersIn(rows, yearOf, y) != {}
    ensures forall i :: 0 <= i < |r| ==> r[i] == Point(rows, yearOf, r[i].year)
    ensures forall i :: 0 <= i < |r| ==> 0.0 <= r[i].rate <= 100.0
  {
    var years := Years(rows, yearOf);
    var r := Points(rows, yearOf, years);
    YearsCovered(rows, yearOf, years, r);
    r
  }

  /** The retention points of the years `years`, in that order. */
  function Points(rows: seq<Transaction>, yearOf: int -> int, years: seq<int>): (r: seq<RetentionPoint>)
    ensures |r| == |years|
    ensures forall i :: 0 <= i < |years| ==> r[i] == Point(rows, yearOf, years[i]) && r[i].year == years[i]
  {
    if years == [] then [] else [Point(rows, yearOf, years[0])] + Points(rows, yearOf, years[1..])
  }

  lemma YearsCovered(rows: seq<Transaction>, yearOf: int -> int, years: seq<int>, r: seq<RetentionPoint>)
    requires StrictlyIncreasing(years)
    requires forall y :: y in years <==> CustomersIn(rows, yearOf, y) != {}
    requires |r| == |years| && forall i :: 0 <= i < |r| ==> r[i] == Point(rows, yearOf, years[i])
    ensures forall i, j :: 0 <= i < j < |r| ==> r[i].year < r[j].year
    ensures forall y :: (exists i :: 0 <= i < |r| && r[i].year == y) <==> CustomersIn(rows, yearOf, y) != {}
    ensures forall i :: 0 <= i < |r| ==> r[i] == Point(rows, yearOf, r[i].year)
    ensures forall i :: 0 <= i < |r| ==> 0.0 <= r[i].rate <= 100.0
  {
    forall y | CustomersIn(rows, yearOf, y) != {} ensures exists i :: 0 <= i < |r| && r[i].year == y {
      var i :| 0 <= i < |years| && years[i] == y;
      assert r[i].year == y;
    }
  }

  /** A year's rate is 0 exactly when nobody bought twice in it. */
  lemma RateZero(rows: seq<Transaction>, yearOf: int -> int, y: int)
    ensures Point(rows, yearOf, y).rate == 0.0 <==> forall c :: PairCount(rows, yearOf, y, c) < 2
  {
    var returning := ReturningIn(rows, yearOf, y);
    assert |returning| == 0 <==> returning == {};
  }

  /** A year's rate is 100 exactly when every customer of the year bought at
      least twice in it. */
  lemma RateFull(rows: seq<Transaction>, yearOf: int -> int, y: int)
    requires CustomersIn(rows, yearOf, y) != {}
    ensures Point(rows, yearOf, y).rate == 100.0 <==>
      forall c :: c in CustomersIn(rows, yearOf, y) ==> PairCount(rows, yearOf, y, c) >= 2
  {
    var returning, unique := ReturningIn(rows, yearOf, y), CustomersIn(rows, yearOf, y);
    ReturningSubset(rows, yearOf, y);
    assert Point(rows, yearOf, y).rate == 100.0 <==> |returning| == |unique|;
    SubsetCard(returning, unique);
  }
}
