/** The loaded table seen as sales records, and the projections the report
    pages group and sum. */
module Sales {
  import opened Cells
  import opened Frames
  import opened Grouping

  /** One row of a loaded dataset: the cells the reports read, with the two
      amount columns as numbers (the loader has checked their dtype). */
  datatype Record = Record(
    country: Cell,
    month: Cell,
    monthOrder: Cell,
    customer: Cell,
    product: Cell,
    quantity: real,
    amount: real)

  function RecordOf(t: Table, i: nat): (r: Record)
    requires IsDataset(t)
    requires i < |t.rows|
    ensures r.country == t.rows[i][Country] && r.month == t.rows[i][Month]
    ensures r.monthOrder == t.rows[i][MonthOrder]
    ensures r.customer == t.rows[i][CustomerID] && r.product == t.rows[i][ProductName]
    ensures Num(r.quantity) == t.rows[i][QuantiteVendue] && Num(r.amount) == t.rows[i][MontantVentes]
  {
    var row := t.rows[i];
    assert forall c :: c in t.names ==> c in row by {
      assert row.Keys == ColumnSet(t.names);
    }
    assert Required[0] == Country && Required[1] == Month && Required[2] == CustomerID;
    assert Required[3] == ProductName && Required[4] == QuantiteVendue && Required[5] == MontantVentes;
    Record(row[Country], row[Month], row[MonthOrder], row[CustomerID], row[ProductName],
           row[QuantiteVendue].n, row[MontantVentes].n)
  }

  /** The records of a loaded dataset, row by row. */
  function ToRecords(t: Table): (rs: seq<Record>)
    requires IsDataset(t)
    ensures |rs| == |t.rows|
    ensures forall i :: 0 <= i < |rs| ==> rs[i] == RecordOf(t, i)
  {
    seq(|t.rows|, i requires 0 <= i < |t.rows| => RecordOf(t, i))
  }

  function Amount(r: Record): real { r.amount }
  function Quantity(r: Record): real { r.quantity }
  function CountryOf(r: Record): Cell { r.country }
  function MonthKey(r: Record): (Cell, Cell) { (r.month, r.monthOrder) }
  function CustomerProduct(r: Record): (Cell, Cell) { (r.customer, r.product) }

  /** Sum of one numeric column over the records. */
  function Total(rs: seq<Record>, value: Record -> real): real {
    if |rs| == 0 then 0.0 else Total(rs[..|rs| - 1], value) + value(rs[|rs| - 1])
  }

  /** The (key, value) pairs a group-by reads, one per record, in order. */
  function Entries<K>(rs: seq<Record>, key: Record -> K, value: Record -> real): (es: seq<(K, real)>)
    ensures |es| == |rs|
    ensures forall i :: 0 <= i < |rs| ==> es[i] == (key(rs[i]), value(rs[i]))
  {
    if |rs| == 0 then []
    else Entries(rs[..|rs| - 1], key, value) + [(key(rs[|rs| - 1]), value(rs[|rs| - 1]))]
  }

  /** The entries carry the whole column total, and their keys are exactly
      the keys of the records. */
  lemma {:induction false} EntriesTotal<K>(rs: seq<Record>, key: Record -> K, value: Record -> real)
    ensures SumValues(Entries(rs, key, value)) == Total(rs, value)
    ensures forall k :: k in KeySet(Entries(rs, key, value)) <==> exists i :: 0 <= i < |rs| && key(rs[i]) == k
  {
    if |rs| > 0 {
      var prefix := rs[..|rs| - 1];
      EntriesTotal(prefix, key, value);
      assert Entries(rs, key, value)[..|rs| - 1] == Entries(prefix, key, value);
      forall k
        ensures k in KeySet(Entries(rs, key, value)) <==> exists i :: 0 <= i < |rs| && key(rs[i]) == k
      {
        if exists i :: 0 <= i < |rs| && key(rs[i]) == k {
          var i :| 0 <= i < |rs| && key(rs[i]) == k;
          if i < |rs| - 1 {
            assert key(prefix[i]) == k;
          }
        }
        if exists i :: 0 <= i < |prefix| && key(prefix[i]) == k {
          var i :| 0 <= i < |prefix| && key(prefix[i]) == k;
          assert key(rs[i]) == k;
        }
      }
    }
  }
}
