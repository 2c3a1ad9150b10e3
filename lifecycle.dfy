/** Customer lifecycle segmentation into new, lost and returning customers
    (app.py, lines 115-139). */
module Lifecycle {
  import opened Sequences
  import opened Transactions
  import opened Totals

  /** A customer is new when the first purchase falls in the last 365 days
      before the anchor. */
  const NewWindow: int := 365

  /** A customer is lost after 2 years and 2 months (2 * 365 + 2 * 30 days)
      without a purchase. */
  const LostWindow: int := 2 * 365 + 2 * 30

  /** 'Novo', 'Perdido' and 'Recorrente'. */
  datatype Status = New | Lost | Returning

  /** One row of `clientes_info`: `primeira_compra` and `ultima_compra`. */
  datatype Span = Span(customer: int, first: int, last: int)

  /** The earliest sale date of the rows. */
  function FirstDay(rows: seq<Transaction>): (d: int)
    requires rows != []
    ensures forall t :: t in rows ==> d <= t.day
    ensures exists t :: t in rows && t.day == d
  {
    if |rows| == 1 then rows[0].day
    else
      var rest := FirstDay(rows[1..]);
      assert forall t :: t in rows[1..] ==> t in rows;
      assert rows == [rows[0]] + rows[1..];
      if rows[0].day <= rest then rows[0].day else rest
  }

  /** The latest sale date of the rows; for the whole selection this is
      `data_atual`, the anchor of the segmentation. */
  function LastDay(rows: seq<Transaction>): (d: int)
    requires rows != []
    ensures forall t :: t in rows ==> t.day <= d
    ensures exists t :: t in rows && t.day == d
  {
    if |rows| == 1 then rows[0].day
    else
      var rest := LastDay(rows[1..]);
      assert forall t :: t in rows[1..] ==> t in rows;
      assert rows == [rows[0]] + rows[1..];
      if rows[0].day >= rest then rows[0].day else rest
  }

  /** The first and last purchase of customer `c`. */
  function SpanOf(rows: seq<Transaction>, c: int): (s: Span)
    requires c in CustomerSet(rows)
    ensures s.customer == c && s.first <= s.last <= LastDay(rows)
  {
    var mine := RowsOf(rows, c);
    Span(c, FirstDay(mine), LastDay(mine))
  }

  /** `clientes_info`: one span per customer, in code order. */
  function Spans(rows: seq<Transaction>): (r: seq<Span>)
    ensures |r| == NumCustomers(rows)
    ensures forall i :: 0 <= i < |r| ==> r[i].customer in CustomerSet(rows) && r[i] == SpanOf(rows, r[i].customer)
    ensures forall i, j :: 0 <= i < j < |r| ==> r[i].customer < r[j].customer
    ensures forall c :: c in CustomerSet(rows) ==> SpanOf(rows, c) in r
  {
    var cs := Customers(rows);
    var r := seq(|cs|, i requires 0 <= i < |cs| => SpanOf(rows, cs[i]));
    SpansCover(rows, cs, r);
    r
  }

  lemma SpansCover(rows: seq<Transaction>, cs: seq<int>, r: seq<Span>)
    requires forall c :: c in cs <==> c in CustomerSet(rows)
    requires |r| == |cs| && forall i :: 0 <= i < |cs| ==> r[i] == SpanOf(rows, cs[i])
    ensures forall c :: c in CustomerSet(rows) ==> SpanOf(rows, c) in r
  {
    forall c | c in CustomerSet(rows) ensures SpanOf(rows, c) in r {
      var i :| 0 <= i < |cs| && cs[i] == c;
      assert r[i] == SpanOf(rows, c);
    }
  }

  /** The status a customer ends with after the default of line 134 and the
      overwrites of lines 135 and 136, the later one winning. Because the
      lost window is longer than the new window, the overwrite at line 136
      never replaces a 'Novo': a customer is new exactly when the first
      purchase is recent, lost exactly when the last one is old, and
      returning exactly when neither holds. */
  function StatusOf(s: Span, anchor: int): (r: Status)
    ensures s.first <= s.last ==> (r == New <==> s.first > anchor - NewWindow)
    ensures r == Lost <==> s.last < anchor - LostWindow
    ensures r == Returning <==> s.first <= anchor - NewWindow && s.last >= anchor - LostWindow
  {
    if s.last < anchor - LostWindow then Lost
    else if s.first > anchor - NewWindow then New
    else Returning
  }

  /** The `status` column: filled with 'Recorrente', then overwritten with
      'Novo' and then with 'Perdido' where the thresholds say so. */
  method Classify(spans: seq<Span>, anchor: int) returns (status: seq<Status>)
    ensures |status| == |spans|
    ensures forall i :: 0 <= i < |spans| ==> status[i] == StatusOf(spans[i], anchor)
  {
    var limitNew := anchor - NewWindow;
    var limitLost := anchor - LostWindow;
    var column := new Status[|spans|](_ => Returning);
    for i := 0 to |spans|
      invariant forall k :: 0 <= k < i ==> column[k] == if spans[k].first > limitNew then New else Returning
      invariant forall k :: i <= k < |spans| ==> column[k] == Returning
    {
      if spans[i].first > limitNew {
        column[i] := New;
      }
    }
    for i := 0 to |spans|
      invariant forall k :: 0 <= k < i ==> column[k] == StatusOf(spans[k], anchor)
      invariant forall k :: i <= k < |spans| ==> column[k] == if spans[k].first > limitNew then New else Returning
    {
      if spans[i].last < limitLost {
        column[i] := Lost;
      }
    }
    status := column[..];
  }

  /** `status_clientes`: how many customers have each status. */
  datatype StatusCounts = StatusCounts(newCustomers: nat, lostCustomers: nat, returningCustomers: nat)

  function CountOf(status: seq<Status>, s: Status): nat {
    if status == [] then 0 else (if status[0] == s then 1 else 0) + CountOf(status[1..], s)
  }

  /** `value_counts()` of the status column. */
  function Tally(status: seq<Status>): (counts: StatusCounts)
    ensures counts.newCustomers + counts.lostCustomers + counts.returningCustomers == |status|
  {
    TallyTotal(status);
    StatusCounts(CountOf(status, New), CountOf(status, Lost), CountOf(status, Returning))
  }

  lemma {:induction false} TallyTotal(status: seq<Status>)
    ensures CountOf(status, New) + CountOf(status, Lost) + CountOf(status, Returning) == |status|
  {
    if status != [] {
      TallyTotal(status[1..]);
    }
  }

  /** The customers of spans ordered by code whose status is `s`. */
  ghost function CodesWith(spans: seq<Span>, anchor: int, s: Status): set<int> {
    set k | k in spans && StatusOf(k, anchor) == s :: k.customer
  }

  /** With one span per customer, counting statuses counts customers. */
  lemma {:induction false} CountCustomers(spans: seq<Span>, status: seq<Status>, anchor: int, s: Status)
    requires |status| == |spans|
    requires forall i :: 0 <= i < |spans| ==> status[i] == StatusOf(spans[i], anchor)
    requires forall i, j :: 0 <= i < j < |spans| ==> spans[i].customer < spans[j].customer
    ensures CountOf(status, s) == |CodesWith(spans, anchor, s)|
  {
    if spans != [] {
      var rest := spans[1..];
      CountCustomers(rest, status[1..], anchor, s);
      CodesWithCons(spans, anchor, s);
    }
  }

  /** The first span of code-ordered spans adds a code not among the rest. */
  lemma CodesWithCons(spans: seq<Span>, anchor: int, s: Status)
    requires spans != []
    requires forall i, j :: 0 <= i < j < |spans| ==> spans[i].customer < spans[j].customer
    ensures spans[0].customer !in CodesWith(spans[1..], anchor, s)
    ensures CodesWith(spans, anchor, s) ==
      CodesWith(spans[1..], anchor, s) + if StatusOf(spans[0], anchor) == s then {spans[0].customer} else {}
  {
    var rest := spans[1..];
    assert spans == [spans[0]] + rest;
    forall k | k in rest ensures k.customer != spans[0].customer {
      var j :| 0 <= j < |rest| && rest[j] == k;
      assert spans[j + 1] == k;
    }
  }

  /** The customers whose first purchase is after anchor - 365 days. */
  ghost function NewCustomers(rows: seq<Transaction>): set<int>
    requires rows != []
  {
    set c | c in CustomerSet(rows) && SpanOf(rows, c).first > LastDay(rows) - NewWindow
  }

  /** The customers whose last purchase is before anchor - 790 days. */
  ghost function LostCustomers(rows: seq<Transaction>): set<int>
    requires rows != []
  {
    set c | c in CustomerSet(rows) && SpanOf(rows, c).last < LastDay(rows) - LostWindow
  }

  lemma SpanCodes(rows: seq<Transaction>)
    requires rows != []
    ensures CodesWith(Spans(rows), LastDay(rows), New) == NewCustomers(rows)
    ensures CodesWith(Spans(rows), LastDay(rows), Lost) == LostCustomers(rows)
  {
    var spans, anchor := Spans(rows), LastDay(rows);
    forall k | k in spans ensures k.customer in CustomerSet(rows) && k == SpanOf(rows, k.customer) {
      var i :| 0 <= i < |spans| && spans[i] == k;
    }
  }

  // ---------------------------------------------------------------------
  // 'Recorrente' as the comment at line 118 defines it

  /** Customer `c` bought in at least two different calendar years. */
  ghost predicate SeveralYears(rows: seq<Transaction>, yearOf: int -> int, c: int) {
    exists t1, t2 :: t1 in rows && t2 in rows && t1.customer == c && t2.customer == c && yearOf(t1.day) != yearOf(t2.day)
  }

  /** Buying in two different years takes at least two purchases. */
  lemma SeveralYearsTwoRows(rows: seq<Transaction>, yearOf: int -> int, c: int)
    requires SeveralYears(rows, yearOf, c)
    ensures |RowsOf(rows, c)| >= 2
  {
    var t1, t2 :| t1 in rows && t2 in rows && t1.customer == c && t2.customer == c && yearOf(t1.day) != yearOf(t2.day);
    var mine := RowsOf(rows, c);
    var i :| 0 <= i < |mine| && mine[i] == t1;
    var j :| 0 <= j < |mine| && mine[j] == t2;
    assert i != j;
  }

  /** The status as the comments at lines 116-118 describe it: 'Perdido' and
      'Novo' by the same thresholds (`StatusOf` shows that their order does
      not matter), 'Recorrente' only for a customer who
      bought in more than one year, and no status at all (None) for anyone
      else. Where it gives a status it agrees with the code, and its
      returning customers bought more than once. */
  ghost function DocumentedStatus(rows: seq<Transaction>, yearOf: int -> int, c: int): (r: Option<Status>)
    requires c in CustomerSet(rows)
    ensures r == Some(Returning) ==> |RowsOf(rows, c)| >= 2
    ensures r.Some? ==> r.value == StatusOf(SpanOf(rows, c), LastDay(rows))
    ensures r.None? <==> StatusOf(SpanOf(rows, c), LastDay(rows)) == Returning && !SeveralYears(rows, yearOf, c)
  {
    var status := StatusOf(SpanOf(rows, c), LastDay(rows));
    if status != Returning then Some(status)
    else if SeveralYears(rows, yearOf, c) then
      SeveralYearsTwoRows(rows, yearOf, c);
      Some(Returning)
    else None
  }

  /** The segmentation of the selection: the anchor is its latest sale date
      and every customer is counted under exactly one status. */
  method Segment(rows: seq<Transaction>) returns (counts: StatusCounts)
    ensures counts.newCustomers + counts.lostCustomers + counts.returningCustomers == NumCustomers(rows)
    ensures rows == [] ==> counts == StatusCounts(0, 0, 0)
    ensures rows != [] ==> counts.newCustomers == |NewCustomers(rows)|
    ensures rows != [] ==> counts.lostCustomers == |LostCustomers(rows)|
  {
    if rows == [] {
      // the script stops at line 78 on an empty selection; no customers here
      return StatusCounts(0, 0, 0);
    }
    var anchor := LastDay(rows);
    var spans := Spans(rows);
    var status := Classify(spans, anchor);
    counts := Tally(status);
    CountCustomers(spans, status, anchor, New);
    CountCustomers(spans, status, anchor, Lost);
    SpanCodes(rows);
  }
}
