/** The rows of the sales sheet and the sidebar filter that selects the rows
    every metric is computed from (app.py, lines 58-61). */
module Transactions {
  import opened Sequences

  /** One row of the sheet: COD CLIENTE, NOME, DATA VENDA (a day number),
      VALOR VENDIDO (in cents) and PRODUTO. */
  datatype Transaction = Transaction(customer: int, name: string, day: int, amount: int, product: string)

  /** The filter: an inclusive range of days and the chosen products. */
  datatype Selection = Selection(start: int, end: int, products: set<string>)

  predicate Selected(t: Transaction, f: Selection) {
    f.start <= t.day <= f.end && t.product in f.products
  }

  /** `data_filtrada`: first the date mask, then the product mask. */
  function Select(rows: seq<Transaction>, f: Selection): (r: seq<Transaction>)
    ensures IsSubsequence(r, rows)
    ensures forall t :: multiset(r)[t] == if Selected(t, f) then multiset(rows)[t] else 0
    ensures forall t :: t in r <==> t in rows && Selected(t, f)
  {
    var inRange := Filter(rows, (t: Transaction) => f.start <= t.day <= f.end);
    var chosen := Filter(inRange, (t: Transaction) => t.product in f.products);
    SubsequenceTransitive(chosen, inRange, rows);
    chosen
  }

  // ---------------------------------------------------------------------
  // Customers

  /** The distinct customer codes of the rows (what `nunique` counts). */
  function CustomerSet(rows: seq<Transaction>): set<int> {
    set t | t in rows :: t.customer
  }

  /** The COD CLIENTE column. */
  function Codes(rows: seq<Transaction>): seq<int> {
    seq(|rows|, i requires 0 <= i < |rows| => rows[i].customer)
  }

  /** The group keys of `groupby('COD CLIENTE')`: every customer once, ascending. */
  function Customers(rows: seq<Transaction>): (r: seq<int>)
    ensures StrictlyIncreasing(r)
    ensures forall c :: c in r <==> c in CustomerSet(rows)
    ensures |r| == |CustomerSet(rows)|
  {
    var r := SortedDistinct(Codes(rows));
    assert forall c :: c in Codes(rows) <==> c in CustomerSet(rows) by {
      forall c | c in Codes(rows) ensures c in CustomerSet(rows) {
        var i :| 0 <= i < |rows| && Codes(rows)[i] == c;
        assert rows[i] in rows;
      }
      forall c | c in CustomerSet(rows) ensures c in Codes(rows) {
        var t :| t in rows && t.customer == c;
        var i :| 0 <= i < |rows| && rows[i] == t;
        assert Codes(rows)[i] == c;
      }
    }
    StrictlyIncreasingCard(r);
    assert (set y | y in r) == CustomerSet(rows);
    r
  }

  /** The rows of one customer, in order. */
  function RowsOf(rows: seq<Transaction>, c: int): (r: seq<Transaction>)
    ensures forall t :: t in r <==> t in rows && t.customer == c
    ensures r != [] <==> c in CustomerSet(rows)
  {
    Filter(rows, (t: Transaction) => t.customer == c)
  }

  /** No row records a negative amount. */
  predicate NoRefunds(rows: seq<Transaction>) {
    forall t :: t in rows ==> t.amount >= 0
  }

  /** The sum of the VALOR VENDIDO column: nothing for no rows, the amount
      itself for one row. */
  function Revenue(rows: seq<Transaction>): (r: int)
    ensures rows == [] ==> r == 0
    ensures |rows| == 1 ==> r == rows[0].amount
  {
    if rows == [] then 0 else rows[0].amount + Revenue(rows[1..])
  }

  /** With no negative amounts the revenue is non-negative and at least
      every single sale. */
  lemma {:induction false} RevenueBounds(rows: seq<Transaction>)
    requires NoRefunds(rows)
    ensures Revenue(rows) >= 0
    ensures forall t :: t in rows ==> t.amount <= Revenue(rows)
  {
    if rows != [] {
      assert forall t :: t in rows <==> t == rows[0] || t in rows[1..];
      RevenueBounds(rows[1..]);
    }
  }

  lemma CustomerSetCons(rows: seq<Transaction>)
    requires rows != []
    ensures CustomerSet(rows) == {rows[0].customer} + CustomerSet(rows[1..])
  {
    assert rows == [rows[0]] + rows[1..];
  }

  lemma CustomerSetSnoc(rows: seq<Transaction>, t: Transaction)
    ensures CustomerSet(rows + [t]) == CustomerSet(rows) + {t.customer}
  {
  }

  /** Rows with the same multiset have the same customers. */
  lemma CustomerSetPermutation(a: seq<Transaction>, b: seq<Transaction>)
    requires multiset(a) == multiset(b)
    ensures CustomerSet(a) == CustomerSet(b)
  {
    assert forall t :: t in a <==> t in b by {
      forall t ensures t in a <==> t in b {
        assert t in a <==> t in multiset(a);
        assert t in b <==> t in multiset(b);
      }
    }
  }
}
