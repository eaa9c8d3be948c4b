/** The load pipeline and the report pages together: what a successfully
    loaded upload guarantees about the figures computed from it. */
module Dashboard {
  import opened Collections
  import opened Cells
  import opened Frames
  import opened Months
  import opened Loader
  import opened Grouping
  import opened Sales
  import opened Reports

  /** A record carries the calendar number of its own month label. */
  predicate CalendarNumbered(r: Record) {
    MonthNumber(r.month).Some? && r.monthOrder == Num(MonthNumber(r.month).value as real)
  }

  /** When the loader derived `MonthOrder` itself, every record of the
      loaded table carries its label's calendar number. */
  lemma {:induction false} NumberedRecords(t: Table, u: Table)
    requires Month in t.names
    requires NumberedFrom(t, u)
    requires IsDataset(u)
    ensures forall i :: 0 <= i < |ToRecords(u)| ==> CalendarNumbered(ToRecords(u)[i])
  {
    var rs := ToRecords(u);
    forall i | 0 <= i < |rs|
      ensures CalendarNumbered(rs[i])
    {
      assert Month in t.rows[i] by {
        assert t.rows[i].Keys == ColumnSet(t.names);
      }
      assert rs[i].month == t.rows[i][Month];
    }
  }

  /** `name` was parsed into `t`, which has no `MonthOrder` column of its
      own, and the load succeeded with `u`. */
  predicate LoadedUnnumbered(name: string, parse: Format -> Option<Table>, t: Table, u: Table) {
    && FormatOf(name).Some?
    && parse(FormatOf(name).value) == Some(t)
    && MonthOrder !in t.names
    && Load(name, parse) == Loaded(u)
  }

  /** A successful load of a table without its own `MonthOrder` column is
      that table with the month numbers added. */
  lemma LoadedIsNumbered(name: string, parse: Format -> Option<Table>, t: Table, u: Table)
    ensures LoadedUnnumbered(name, parse, t, u) ==>
      Month in t.names && NumberedFrom(t, u)
  {
    if LoadedUnnumbered(name, parse, t, u) {
      LoadStages(name, parse);
      assert MissingColumns(t.names) == [];
      assert Month in t.names by {
        assert Month in Required && Month !in MissingColumns(t.names);
      }
      assert NormalizeMonths(t) == Loaded(u);
    }
  }

  /** A monthly series over calendar-numbered records pairs each label with
      its number and runs in calendar order. */
  lemma {:induction false} SeriesOfNumberedRecords(rs: seq<Record>)
    requires forall i :: 0 <= i < |rs| ==> CalendarNumbered(rs[i])
    ensures forall g :: g in MonthlySeries(rs) ==>
      MonthNumber(g.key.0).Some? && g.key.1 == Num(MonthNumber(g.key.0).value as real)
    ensures var r := MonthlySeries(rs);
      forall i, j :: 0 <= i < j < |r| ==> MonthNumber(r[i].key.0).value <= MonthNumber(r[j].key.0).value
  {
    var r := MonthlySeries(rs);
    EntriesTotal(rs, MonthKey, Amount);
    forall g | g in r
      ensures MonthNumber(g.key.0).Some? && g.key.1 == Num(MonthNumber(g.key.0).value as real)
    {
      assert g.key in GroupKeys(r);
      var i :| 0 <= i < |rs| && MonthKey(rs[i]) == g.key;
      assert CalendarNumbered(rs[i]);
    }
    forall i, j | 0 <= i < j < |r|
      ensures MonthNumber(r[i].key.0).value <= MonthNumber(r[j].key.0).value
    {
      assert r[i] in r && r[j] in r;
      assert CellLe(r[i].key.1, r[j].key.1);
    }
  }

  /** An upload without its own `MonthOrder` column that loads successfully
      yields a monthly series whose every entry pairs a calendar name with
      its number, running from January towards December. */
  lemma LoadedSeriesInCalendarOrder(name: string, parse: Format -> Option<Table>, t: Table, u: Table)
    ensures LoadedUnnumbered(name, parse, t, u) ==>
      && IsDataset(u)
      && (forall g :: g in MonthlySeries(ToRecords(u)) ==>
            MonthNumber(g.key.0).Some? && g.key.1 == Num(MonthNumber(g.key.0).value as real))
      && var r := MonthlySeries(ToRecords(u));
         forall i, j :: 0 <= i < j < |r| ==> MonthNumber(r[i].key.0).value <= MonthNumber(r[j].key.0).value
  {
    if LoadedUnnumbered(name, parse, t, u) {
      LoadedIsNumbered(name, parse, t, u);
      NumberedRecords(t, u);
      SeriesOfNumberedRecords(ToRecords(u));
    }
  }
}
