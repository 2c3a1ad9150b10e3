/** Portfolio totals and per-customer averages (app.py, lines 63-78). */
module Totals {
  import opened Sequences
  import opened Transactions

  lemma {:induction false} CustomerSetBound(rows: seq<Transaction>)
    ensures |CustomerSet(rows)| <= |rows|
  {
    if rows != [] {
      CustomerSetCons(rows);
      CustomerSetBound(rows[1..]);
    }
  }

  /** `num_clientes`: the number of distinct customer codes. */
  function NumCustomers(rows: seq<Transaction>): (n: nat)
    ensures n <= |rows|
    ensures n == 0 <==> rows == []
  {
    CustomerSetBound(rows);
    assert rows != [] ==> rows[0].customer in CustomerSet(rows);
    |CustomerSet(rows)|
  }

  /** `total / n`, missing (None) when there is nothing to divide by. */
  function PerCount(total: int, n: nat): (r: Option<real>)
    ensures r.None? <==> n == 0
    ensures r.Some? ==> r.value * n as real == total as real
  {
    if n == 0 then None else Some(total as real / n as real)
  }

  /** `media_faturamento_cliente`: `faturamento_total / num_clientes`, which
      pandas reports as NaN (here None) when the selection is empty. */
  function RevenuePerCustomer(rows: seq<Transaction>): (r: Option<real>)
    ensures r.None? <==> rows == []
    ensures r.Some? ==> r.value * NumCustomers(rows) as real == Revenue(rows) as real
  {
    var total, n := Revenue(rows), NumCustomers(rows);
    PerCount(total, n)
  }

  /** `media_compras_cliente`: `num_compras / num_clientes`; every customer
      bought at least once. Both operands are Python integers, so on an empty
      selection line 78 raises ZeroDivisionError and nothing after it is
      computed; None stands for that outcome. */
  function PurchasesPerCustomer(rows: seq<Transaction>): (r: Option<real>)
    ensures r.None? <==> rows == []
    ensures r.Some? ==> r.value * NumCustomers(rows) as real == |rows| as real
    ensures r.Some? ==> r.value >= 1.0
  {
    PerCount(|rows|, NumCustomers(rows))
  }
}
