/** The computations behind the two report pages: the analysis report over
    the whole dataset, and the interactive report over a (countries, months)
    selection with its customer-by-product quantity table. */
module Reports {
  import opened Collections
  import opened Cells
  import opened Grouping
  import opened Sales

  // ---------------------------------------------------------------------
  // Analysis report

  function TotalSales(rs: seq<Record>): real { Total(rs, Amount) }

  function TotalQuantity(rs: seq<Record>): real { Total(rs, Quantity) }

  /** Mean sale amount; undefined (NaN in the dashboard) on no records. */
  function AverageSales(rs: seq<Record>): (r: real)
    requires |rs| > 0
    ensures r * (|rs| as real) == TotalSales(rs)
  {
    TotalSales(rs) / (|rs| as real)
  }

  predicate TotalAtLeast(a: Group<Cell>, b: Group<Cell>) {
    a.total >= b.total
  }

  predicate MonthOrderLe(a: Group<(Cell, Cell)>, b: Group<(Cell, Cell)>) {
    CellLe(a.key.1, b.key.1)
  }

  lemma OrdersArePreorders()
    ensures TotalPreorder(TotalAtLeast)
    ensures TotalPreorder(MonthOrderLe)
  {
    CellLeTotalOrder();
  }

  /** Sales per country, largest first. */
  function CountryRanking(rs: seq<Record>): (r: seq<Group<Cell>>)
    ensures IsGrouping(r, Entries(rs, CountryOf, Amount))
    ensures SumTotals(r) == TotalSales(rs)
    ensures forall i, j :: 0 <= i < j < |r| ==> r[i].total >= r[j].total
  {
    var es := Entries(rs, CountryOf, Amount);
    var g := GroupSum(es);
    GroupSumIsGrouping(es);
    EntriesTotal(rs, CountryOf, Amount);
    SortByGrouping(g, es, TotalAtLeast);
    OrdersArePreorders();
    SortBySorted(g, TotalAtLeast);
    SortBy(g, TotalAtLeast)
  }

  /** Sales per (Month, MonthOrder) pair, in increasing `MonthOrder`. */
  function MonthlySeries(rs: seq<Record>): (r: seq<Group<(Cell, Cell)>>)
    ensures IsGrouping(r, Entries(rs, MonthKey, Amount))
    ensures SumTotals(r) == TotalSales(rs)
    ensures forall i, j :: 0 <= i < j < |r| ==> CellLe(r[i].key.1, r[j].key.1)
  {
    var es := Entries(rs, MonthKey, Amount);
    var g := GroupSum(es);
    GroupSumIsGrouping(es);
    EntriesTotal(rs, MonthKey, Amount);
    SortByGrouping(g, es, MonthOrderLe);
    OrdersArePreorders();
    SortBySorted(g, MonthOrderLe);
    SortBy(g, MonthOrderLe)
  }

  datatype Analysis = Analysis(
    totalSales: real,
    totalQuantity: real,
    countries: seq<Group<Cell>>,
    monthly: seq<Group<(Cell, Cell)>>)

  /** The analysis page: headline totals, country ranking and monthly
      series, all over the unfiltered dataset. */
  function AnalysisReport(rs: seq<Record>): (a: Analysis)
    ensures a.totalSales == Total(rs, Amount)
    ensures a.totalSales == SumTotals(a.countries) == SumTotals(a.monthly)
    ensures a.totalQuantity == Total(rs, Quantity)
    ensures IsGrouping(a.countries, Entries(rs, CountryOf, Amount))
    ensures forall i, j :: 0 <= i < j < |a.countries| ==> a.countries[i].total >= a.countries[j].total
    ensures IsGrouping(a.monthly, Entries(rs, MonthKey, Amount))
    ensures forall i, j :: 0 <= i < j < |a.monthly| ==> CellLe(a.monthly[i].key.1, a.monthly[j].key.1)
  {
    Analysis(TotalSales(rs), TotalQuantity(rs), CountryRanking(rs), MonthlySeries(rs))
  }

  // ---------------------------------------------------------------------
  // Interactive report: filter options and selection

  function Countries(rs: seq<Record>): (cs: seq<Cell>)
    ensures |cs| == |rs| && forall i :: 0 <= i < |rs| ==> cs[i] == rs[i].country
  {
    seq(|rs|, i requires 0 <= i < |rs| => rs[i].country)
  }

  function MonthLabels(rs: seq<Record>): (ms: seq<Cell>)
    ensures |ms| == |rs| && forall i :: 0 <= i < |rs| ==> ms[i] == rs[i].month
  {
    seq(|rs|, i requires 0 <= i < |rs| => rs[i].month)
  }

  /** The country choices, each once, in increasing order. */
  function CountryOptions(rs: seq<Record>): (cs: seq<Cell>)
    ensures Distinct(cs)
    ensures forall i, j :: 0 <= i < j < |cs| ==> CellLe(cs[i], cs[j])
    ensures forall c :: c in cs <==> exists i :: 0 <= i < |rs| && rs[i].country == c
  {
    var d := Dedup(Countries(rs));
    CellLeTotalOrder();
    SortBySorted(d, CellLe);
    SortByDistinct(d, CellLe);
    var r := SortBy(d, CellLe);
    forall c
      ensures c in r <==> exists i :: 0 <= i < |rs| && rs[i].country == c
    {
      assert c in r <==> c in multiset(d);
      assert c in d <==> c in Countries(rs);
      if c in Countries(rs) {
        var i :| 0 <= i < |rs| && Countries(rs)[i] == c;
      }
    }
    r
  }

  /** The `MonthOrder` of the first record labelled `m`. */
  function FirstMonthOrder(rs: seq<Record>, m: Cell): Cell {
    if |rs| == 0 then Num(0.0)
    else if rs[0].month == m then rs[0].monthOrder
    else FirstMonthOrder(rs[1..], m)
  }

  function ByFirstMonthOrder(rs: seq<Record>): (Cell, Cell) -> bool {
    (a: Cell, b: Cell) => CellLe(FirstMonthOrder(rs, a), FirstMonthOrder(rs, b))
  }

  lemma ByFirstMonthOrderIsPreorder(rs: seq<Record>)
    ensures TotalPreorder(ByFirstMonthOrder(rs))
  {
    CellLeTotalOrder();
  }

  /** Where the label first appears among the records. */
  function FirstSeenFn(rs: seq<Record>): Cell -> int {
    (m: Cell) => FirstIndex(MonthLabels(rs), m)
  }

  /** The first-appearance list of labels sorted by their first `MonthOrder`. */
  function SortedLabels(rs: seq<Record>): seq<Cell> {
    SortBy(Dedup(MonthLabels(rs)), ByFirstMonthOrder(rs))
  }

  /** Sorting the labels by their first `MonthOrder` keeps tied labels in
      first-appearance order. */
  lemma MonthOptionsStable(rs: seq<Record>)
    ensures var ms := SortedLabels(rs);
      forall i, j :: 0 <= i < j < |ms| && FirstMonthOrder(rs, ms[i]) == FirstMonthOrder(rs, ms[j]) ==>
        FirstIndex(MonthLabels(rs), ms[i]) < FirstIndex(MonthLabels(rs), ms[j])
  {
    var ms := SortedLabels(rs);
    var labels := MonthLabels(rs);
    var d := Dedup(labels);
    var le := ByFirstMonthOrder(rs);
    var rank := FirstSeenFn(rs);
    DedupFirstOrder(labels);
    assert forall i, j :: 0 <= i < j < |d| ==> rank(d[i]) < rank(d[j]);
    SortByStable(d, le, rank);
    CellLeTotalOrder();
    forall i, j | 0 <= i < j < |ms| && FirstMonthOrder(rs, ms[i]) == FirstMonthOrder(rs, ms[j])
      ensures FirstIndex(labels, ms[i]) < FirstIndex(labels, ms[j])
    {
      assert le(ms[j], ms[i]);
      assert rank(ms[i]) < rank(ms[j]);
    }
  }

  /** The month choices, each once, ordered by the `MonthOrder` of each
      label's first record; labels tied on that number keep the order in
      which they first appear (the sort is stable). */
  function MonthOptions(rs: seq<Record>): (ms: seq<Cell>)
    ensures Distinct(ms)
    ensures forall i, j :: 0 <= i < j < |ms| ==>
      CellLe(FirstMonthOrder(rs, ms[i]), FirstMonthOrder(rs, ms[j]))
    ensures forall i, j :: 0 <= i < j < |ms| && FirstMonthOrder(rs, ms[i]) == FirstMonthOrder(rs, ms[j]) ==>
      FirstIndex(MonthLabels(rs), ms[i]) < FirstIndex(MonthLabels(rs), ms[j])
    ensures forall m :: m in ms <==> exists i :: 0 <= i < |rs| && rs[i].month == m
  {
    var d := Dedup(MonthLabels(rs));
    var le := ByFirstMonthOrder(rs);
    var r := SortedLabels(rs);
    assert Distinct(r) && SortedBy(r, le) by {
      ByFirstMonthOrderIsPreorder(rs);
      SortBySorted(d, le);
      SortByDistinct(d, le);
    }
    MonthOptionsStable(rs);
    forall m
      ensures m in r <==> exists i :: 0 <= i < |rs| && rs[i].month == m
    {
      assert m in r <==> m in multiset(d);
      assert m in d <==> m in MonthLabels(rs);
      if m in MonthLabels(rs) {
        var i :| 0 <= i < |rs| && MonthLabels(rs)[i] == m;
      }
    }
    r
  }

  /** The row test of the selection: country and month both chosen. */
  predicate Keep(r: Record, countries: seq<Cell>, months: seq<Cell>) {
    r.country in countries && r.month in months
  }

  function KeepFn(countries: seq<Cell>, months: seq<Cell>): Record -> bool {
    (r: Record) => Keep(r, countries, months)
  }

  /** The records passing the selection, in their original order. */
  function Matching(rs: seq<Record>, countries: seq<Cell>, months: seq<Cell>): (m: seq<Record>)
    ensures forall r :: multiset(m)[r] == if Keep(r, countries, months) then multiset(rs)[r] else 0
    ensures forall r :: r in m <==> r in rs && Keep(r, countries, months)
  {
    Filter(rs, KeepFn(countries, months))
  }

  /** Selection keeps relative order: it distributes over concatenation. */
  lemma MatchingAppend(a: seq<Record>, b: seq<Record>, countries: seq<Cell>, months: seq<Cell>)
    ensures Matching(a + b, countries, months) == Matching(a, countries, months) + Matching(b, countries, months)
  {
    FilterAppend(a, b, KeepFn(countries, months));
  }

  datatype Warning = NothingSelected | NoMatch

  /** A report either stops on a user-facing warning or produces a value. */
  datatype Outcome<+T> = Warn(warning: Warning) | Done(value: T)

  /** Applies the selection: refused when either list is empty, a distinct
      warning when nothing matches, otherwise the matching records. */
  function Select(rs: seq<Record>, countries: seq<Cell>, months: seq<Cell>): (s: Outcome<seq<Record>>)
    ensures s == Warn(NothingSelected) <==> |countries| == 0 || |months| == 0
    ensures s == Warn(NoMatch) <==>
      |countries| > 0 && |months| > 0 && forall i :: 0 <= i < |rs| ==> !Keep(rs[i], countries, months)
    ensures s.Done? ==> s.value == Matching(rs, countries, months) && |s.value| > 0
  {
    if |countries| == 0 || |months| == 0 then Warn(NothingSelected)
    else
      var m := Matching(rs, countries, months);
      if |m| == 0 then
        assert forall i :: 0 <= i < |rs| ==> !Keep(rs[i], countries, months) by {
          forall i | 0 <= i < |rs| ensures !Keep(rs[i], countries, months) {
            assert rs[i] !in m;
          }
        }
        Warn(NoMatch)
      else
        assert m[0] in rs;
        Done(m)
  }

  /** With the default choices (every option) the selection keeps every
      record; on an empty dataset there are no options, so it is refused. */
  lemma DefaultSelectionKeepsAll(rs: seq<Record>)
    ensures Select(rs, CountryOptions(rs), MonthOptions(rs)) ==
      if |rs| == 0 then Warn(NothingSelected) else Done(rs)
  {
    var cs := CountryOptions(rs);
    var ms := MonthOptions(rs);
    if |rs| > 0 {
      assert rs[0].country in cs;
      assert rs[0].month in ms;
      FilterKeepAll(rs, KeepFn(cs, ms));
    }
  }

  // ---------------------------------------------------------------------
  // Interactive report: customer-by-product table

  /** Quantity sold per (CustomerID, ProductName). */
  function CustomerProductTable(rows: seq<Record>): (r: seq<Group<(Cell, Cell)>>)
    ensures IsGrouping(r, Entries(rows, CustomerProduct, Quantity))
    ensures SumTotals(r) == TotalQuantity(rows)
  {
    var es := Entries(rows, CustomerProduct, Quantity);
    GroupSumIsGrouping(es);
    EntriesTotal(rows, CustomerProduct, Quantity);
    GroupSum(es)
  }

  function CustomersIn(table: seq<Group<(Cell, Cell)>>): (cs: seq<Cell>)
    ensures |cs| == |table| && forall i :: 0 <= i < |table| ==> cs[i] == table[i].key.0
  {
    seq(|table|, i requires 0 <= i < |table| => table[i].key.0)
  }

  /** The customer choices: the table's customers, each once, increasing. */
  function CustomerOptions(table: seq<Group<(Cell, Cell)>>): (ids: seq<Cell>)
    ensures Distinct(ids)
    ensures forall i, j :: 0 <= i < j < |ids| ==> CellLe(ids[i], ids[j])
    ensures forall c :: c in ids <==> exists x :: x in table && x.key.0 == c
  {
    var cs := CustomersIn(table);
    var d := Dedup(cs);
    CellLeTotalOrder();
    SortBySorted(d, CellLe);
    SortByDistinct(d, CellLe);
    var r := SortBy(d, CellLe);
    forall c
      ensures c in r <==> exists x :: x in table && x.key.0 == c
    {
      assert c in r <==> c in multiset(d);
      if c in cs {
        var i :| 0 <= i < |cs| && cs[i] == c;
        assert table[i] in table;
      }
    }
    r
  }

  /** The customers pre-selected: the five smallest IDs, or all of them
      when there are fewer than five. */
  function DefaultCustomers(table: seq<Group<(Cell, Cell)>>): (d: seq<Cell>)
    ensures |d| <= 5 && Distinct(d) && SortedBy(d, CellLe)
    ensures forall c :: c in d ==> exists x :: x in table && x.key.0 == c
    ensures |d| == 5 || forall x :: x in table ==> x.key.0 in d
    ensures forall c, x :: c in d && x in table && x.key.0 !in d ==> CellLe(c, x.key.0) && c != x.key.0
  {
    var ids := CustomerOptions(table);
    var n := if |ids| >= 5 then 5 else |ids|;
    var d := ids[..n];
    forall x | x in table
      ensures x.key.0 in ids
    {
    }
    forall c | c in d
      ensures exists x :: x in table && x.key.0 == c
    {
      assert c in ids;
    }
    forall c, x | c in d && x in table && x.key.0 !in d
      ensures CellLe(c, x.key.0) && c != x.key.0
    {
      var i :| 0 <= i < n && d[i] == c;
      var j :| 0 <= j < |ids| && ids[j] == x.key.0;
    }
    d
  }

  function SelectedFn(selected: seq<Cell>): Group<(Cell, Cell)> -> bool {
    (x: Group<(Cell, Cell)>) => x.key.0 in selected
  }

  /** The table rows of the chosen customers, in table order. */
  function ShownTable(table: seq<Group<(Cell, Cell)>>, selected: seq<Cell>): (r: seq<Group<(Cell, Cell)>>)
    ensures forall x :: multiset(r)[x] == if x.key.0 in selected then multiset(table)[x] else 0
  {
    Filter(table, SelectedFn(selected))
  }

  /** Choosing every customer option shows the whole table. */
  lemma ShownTableAllCustomers(table: seq<Group<(Cell, Cell)>>)
    ensures ShownTable(table, CustomerOptions(table)) == table
  {
    var ids := CustomerOptions(table);
    forall i | 0 <= i < |table|
      ensures SelectedFn(ids)(table[i])
    {
      assert table[i] in table;
    }
    FilterKeepAll(table, SelectedFn(ids));
  }

  /** The shown rows of a customer-by-product table are still one per key,
      each with the full quantity of its (customer, product) pair. */
  lemma {:induction false} ShownTableGroups(rows: seq<Record>, selected: seq<Cell>)
    ensures var es := Entries(rows, CustomerProduct, Quantity);
      var s := ShownTable(CustomerProductTable(rows), selected);
      && DistinctKeys(s)
      && (forall x :: x in s ==> x.key.0 in selected && x.total == SumFor(es, x.key))
      && (forall k :: k in KeySet(es) && k.0 in selected ==> exists x :: x in s && x.key == k)
  {
    var es := Entries(rows, CustomerProduct, Quantity);
    var t := CustomerProductTable(rows);
    FilterDistinctKeys(t, SelectedFn(selected));
    var s := ShownTable(t, selected);
    forall k: (Cell, Cell) | k in KeySet(es) && k.0 in selected
      ensures exists x :: x in s && x.key == k
    {
      assert k in GroupKeys(t);
      var x :| x in t && x.key == k;
      assert x in s;
    }
  }

  datatype CustomerView = CustomerView(
    table: seq<Group<(Cell, Cell)>>,
    customers: seq<Cell>,
    defaults: seq<Cell>)

  /** The interactive page: the selection's warnings, or the quantity
      table of the matching records with its customer choices. */
  function InteractiveReport(rs: seq<Record>, countries: seq<Cell>, months: seq<Cell>): (r: Outcome<CustomerView>)
    ensures r.Warn? <==> Select(rs, countries, months).Warn?
    ensures r.Warn? ==> r.warning == Select(rs, countries, months).warning
    ensures r.Done? ==> SumTotals(r.value.table) == TotalQuantity(Matching(rs, countries, months))
    ensures r.Done? ==> forall c :: c in r.value.defaults ==> c in r.value.customers
    ensures r.Done? ==> IsGrouping(r.value.table, Entries(Matching(rs, countries, months), CustomerProduct, Quantity))
    ensures r.Done? ==> r.value.customers == CustomerOptions(r.value.table)
    ensures r.Done? ==> r.value.defaults == DefaultCustomers(r.value.table)
  {
    match Select(rs, countries, months)
    case Warn(w) => Warn(w)
    case Done(rows) =>
      var table := CustomerProductTable(rows);
      Done(CustomerView(table, CustomerOptions(table), DefaultCustomers(table)))
  }
}
