/** A parsed table: ordered column names, the set of columns whose dtype
    is numeric, and one row per record mapping every column to its cell. */
module Frames {
  import opened Cells

  type Row = map<string, Cell>

  datatype Frame = Frame(names: seq<string>, numeric: set<string>, rows: seq<Row>)

  function ColumnSet(names: seq<string>): set<string> {
    set c | c in names
  }

  /** What any parser hands back: distinct column names, every row defined
      on exactly those columns, and numeric columns holding numbers only. */
  predicate WellFormed(f: Frame) {
    && (forall i, j :: 0 <= i < j < |f.names| ==> f.names[i] != f.names[j])
    && (forall c :: c in f.numeric ==> c in f.names)
    && (forall i :: 0 <= i < |f.rows| ==> f.rows[i].Keys == ColumnSet(f.names))
    && (forall i, c :: 0 <= i < |f.rows| && c in f.numeric ==> c in f.rows[i] && f.rows[i][c].Num?)
  }

  type Table = f: Frame | WellFormed(f) witness Frame([], {}, [])

  const Country := "Country"
  const Month := "Month"
  const CustomerID := "CustomerID"
  const ProductName := "ProductName"
  const QuantiteVendue := "QuantiteVendue"
  const MontantVentes := "MontantVentes"
  const MonthOrder := "MonthOrder"

  /** The columns every loaded table must have, in the order they are reported. */
  const Required: seq<string> := [Country, Month, CustomerID, ProductName, QuantiteVendue, MontantVentes]

  /** A table the report pages can work on: all required columns, numeric
      amounts, and a month ordinal. */
  predicate IsDataset(t: Table) {
    && (forall c :: c in Required ==> c in t.names)
    && MontantVentes in t.numeric
    && QuantiteVendue in t.numeric
    && MonthOrder in t.names
  }
}
