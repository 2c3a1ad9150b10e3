/** Small worked examples of the metrics on concrete rows. */
module Scenarios {
  import opened Sequences
  import opened Transactions
  import opened Totals
  import opened Cadence
  import opened Ranking
  import opened Lifecycle

  /** Customer 1 appears as "A", then "B", then "A" again. */
  function NameRows(): seq<Transaction> {
    [Transaction(1, "A", 0, 100, "P"), Transaction(1, "B", 1, 100, "P"), Transaction(1, "A", 2, 100, "P")]
  }

  lemma NamePairsDeduplicated()
    ensures DropDuplicates(NamePairs(NameRows())) == [(1, "A"), (1, "B")]
  {
    var p, q := (1, "A"), (1, "B");
    var pairs := NamePairs(NameRows());
    var none: seq<(int, string)> := [];
    assert pairs == [p, q, p];
    assert pairs[..2] == [p, q];
    assert [p, q][..1] == [p];
    assert [p][..0] == none;
    assert DropDuplicates([p]) == [p];
    assert DropDuplicates([p, q]) == [p, q];
  }

  lemma NameMapOfPairs()
    ensures NameMap([(1, "A"), (1, "B")]) == map[1 := "B"]
  {
    var p, q := (1, "A"), (1, "B");
    var none: seq<(int, string)> := [];
    assert [p, q][..1] == [p];
    assert [p][..0] == none;
    assert NameMap([p]) == map[1 := "A"];
  }

  /** `drop_duplicates` leaves the pairs (1, "A"), (1, "B") and `to_dict`
      keeps the later one: the name is "B", although the last row says "A". */
  lemma NameScenario()
    ensures ClientMapping(NameRows()) == map[1 := "B"]
  {
    NamePairsDeduplicated();
    NameMapOfPairs();
  }

  /** One customer buying for 100.00 on days 0, 151 and 365. */
  function CadenceRows(): seq<Transaction> {
    [Transaction(7, "C1", 0, 10000, "P"), Transaction(7, "C1", 151, 10000, "P"), Transaction(7, "C1", 365, 10000, "P")]
  }

  lemma CadenceSorted()
    ensures SortedByCustomerDay(CadenceRows()) == CadenceRows()
  {
    SortBySorted(CadenceRows(), CustomerThenDay);
  }

  lemma CadenceDiff()
    ensures Present(DiffColumn(CadenceRows())) == [151, 214]
  {
    var d := DiffColumn(CadenceRows());
    assert d == [None, Some(151), Some(214)];
    var e: seq<Option<int>> := [];
    PresentSnoc(e, None);
    assert e + [None] == [None];
    PresentSnoc([None], Some(151));
    assert [None] + [Some(151)] == [None, Some(151)];
    PresentSnoc([None, Some(151)], Some(214));
    assert [None, Some(151)] + [Some(214)] == d;
  }

  lemma CadenceTotal()
    ensures Total([151, 214]) == 365
  {
    var none: seq<int> := [];
    assert [151][..0] == none;
    assert Total([151]) == 151;
    assert [151, 214][..1] == [151];
  }

  lemma CadenceGaps()
    ensures TotalGap(CadenceRows()) == 365
  {
    CadenceSorted();
    CadenceDiff();
    CadenceTotal();
  }

  lemma CadenceCustomers()
    ensures NumCustomers(CadenceRows()) == 1
  {
    var rows := CadenceRows();
    assert rows[0] in rows;
    assert CustomerSet(rows) == {7};
  }

  lemma CadenceMean()
    ensures MeanGapDays(CadenceRows()) == Some(182)
  {
    CadenceCustomers();
    CadenceGaps();
    assert |CadenceRows()| - NumCustomers(CadenceRows()) == 2;
  }

  /** One customer buying on days 0, 151 and 365: one customer, the revenue
      of the three rows, and gaps of 151 and 214 days whose mean floors to
      182 days. */
  lemma CadenceScenario()
    ensures NumCustomers(CadenceRows()) == 1
    ensures Revenue(CadenceRows()) == 30000
    ensures MeanGapDays(CadenceRows()) == Some(182)
  {
    CadenceCustomers();
    CadenceMean();
  }

  /** Three customers with one purchase each, on days 0, 990 and 1000. */
  function LifecycleRows(): seq<Transaction> {
    [Transaction(1, "A", 0, 100, "P"), Transaction(2, "B", 990, 100, "P"), Transaction(3, "C", 1000, 100, "P")]
  }

  /** With the latest sale on day 1000, a customer whose only purchase is on
      day 990 is new, and one whose only purchase is on day 0 is lost. */
  lemma LifecycleScenario()
    ensures LastDay(LifecycleRows()) == 1000
    ensures 2 in NewCustomers(LifecycleRows()) && 2 !in LostCustomers(LifecycleRows())
    ensures 1 in LostCustomers(LifecycleRows()) && 1 !in NewCustomers(LifecycleRows())
  {
    var rows := LifecycleRows();
    assert rows[0] in rows && rows[1] in rows && rows[2] in rows;
    assert LastDay(rows) == 1000;
    var one, two := RowsOf(rows, 1), RowsOf(rows, 2);
    assert forall t :: t in one ==> t == rows[0];
    assert forall t :: t in two ==> t == rows[1];
    assert SpanOf(rows, 1) == Span(1, 0, 0);
    assert SpanOf(rows, 2) == Span(2, 990, 990);
  }

  /** Customer 1 bought once, on day 500; customer 2 bought on day 1000. */
  function SingleRows(): seq<Transaction> {
    [Transaction(1, "A", 500, 100, "P"), Transaction(2, "B", 1000, 100, "P")]
  }

  /** With the latest sale on day 1000, a customer whose only purchase is on
      day 500 is neither new nor lost, so the code labels them 'Recorrente',
      although they bought in a single year; the documented definition gives
      them no status. */
  lemma SinglePurchaseReturning(yearOf: int -> int)
    ensures 1 in CustomerSet(SingleRows()) && |RowsOf(SingleRows(), 1)| == 1
    ensures StatusOf(SpanOf(SingleRows(), 1), LastDay(SingleRows())) == Returning
    ensures DocumentedStatus(SingleRows(), yearOf, 1).None?
  {
    var rows := SingleRows();
    assert rows[0] in rows && rows[1] in rows;
    assert LastDay(rows) == 1000;
    var one := RowsOf(rows, 1);
    assert forall t :: t in one ==> t == rows[0];
    assert one == [rows[0]];
    assert SpanOf(rows, 1) == Span(1, 500, 500);
  }
}
