/** Loading an uploaded file: extension dispatch, the required-column
    check, the numeric check on the two amount columns, and the derivation
    of `MonthOrder` from the calendar names. Parsing itself is an opaque
    step passed in as `parse`. */
module Loader {
  import opened Collections
  import opened Cells
  import opened Frames
  import opened Months

  datatype Format = Csv | Spreadsheet

  /** Every way a load can end. Only `Loaded` carries a table; each of the
      others is reported to the user and leaves nothing loaded. */
  datatype LoadResult =
    | Unsupported
    | ParseFailed
    | Missing(columns: seq<string>)
    | BadType(column: string)
    | UnknownMonth
    | Loaded(table: Table)

  predicate EndsWith(s: string, suffix: string) {
    |suffix| <= |s| && s[|s| - |suffix|..] == suffix
  }

  lemma EndsWithLast(s: string, suffix: string)
    requires EndsWith(s, suffix) && |suffix| > 0
    ensures s[|s| - 1] == suffix[|suffix| - 1]
  {
    assert s[|s| - |suffix|..][|suffix| - 1] == s[|s| - 1];
  }

  /** The parser chosen from the file name (case-sensitive suffixes). */
  function FormatOf(name: string): (r: Option<Format>)
    ensures r == Some(Csv) <==> EndsWith(name, ".csv")
    ensures r == Some(Spreadsheet) <==> EndsWith(name, ".xlsx") || EndsWith(name, ".xls")
  {
    if EndsWith(name, ".csv") then
      EndsWithLast(name, ".csv");
      assert !EndsWith(name, ".xlsx") by {
        if EndsWith(name, ".xlsx") { EndsWithLast(name, ".xlsx"); }
      }
      assert !EndsWith(name, ".xls") by {
        if EndsWith(name, ".xls") { EndsWithLast(name, ".xls"); }
      }
      Some(Csv)
    else if EndsWith(name, ".xlsx") || EndsWith(name, ".xls") then Some(Spreadsheet)
    else None
  }

  /** Dispatch by what the name ends with, whatever precedes the suffix. */
  lemma FormatOfSuffix(stem: string)
    ensures FormatOf(stem + ".csv") == Some(Csv)
    ensures FormatOf(stem + ".xlsx") == Some(Spreadsheet)
    ensures FormatOf(stem + ".xls") == Some(Spreadsheet)
    ensures FormatOf(stem + ".txt") == None
  {
    assert (stem + ".csv")[|stem|..] == ".csv";
    assert (stem + ".xlsx")[|stem| + 1..] == ".xlsx"[1..];
    assert (stem + ".xls")[|stem|..] == ".xls";
    assert (stem + ".txt")[|stem|..] == ".txt";
  }

  lemma RequiredDistinct()
    ensures Distinct(Required)
  {
  }

  /** The required columns absent from `names`. */
  function MissingColumns(names: seq<string>): (r: seq<string>)
    ensures forall c :: c in r <==> c in Required && c !in names
    ensures forall i, j :: 0 <= i < j < |r| ==> IndexOf(Required, r[i]) < IndexOf(Required, r[j])
  {
    var absent := (c: string) => c !in names;
    RequiredDistinct();
    FilterKeepsOrder(Required, absent);
    Filter(Required, absent)
  }

  /** The schema check run on a freshly parsed table: all missing columns
      at once, then `MontantVentes` before `QuantiteVendue` for the dtype. */
  function Validate(t: Table): (r: LoadResult)
    ensures r.Missing? || r.BadType? || r == Loaded(t)
    ensures r.Missing? <==> exists c :: c in Required && c !in t.names
    ensures r.Missing? ==> forall c :: c in r.columns <==> c in Required && c !in t.names
    ensures r.Missing? ==> r.columns == MissingColumns(t.names)
    ensures r.BadType? <==>
      (forall c :: c in Required ==> c in t.names) &&
      !(MontantVentes in t.numeric && QuantiteVendue in t.numeric)
    ensures r.BadType? ==> r.column == (if MontantVentes !in t.numeric then MontantVentes else QuantiteVendue)
  {
    var missing := MissingColumns(t.names);
    if missing != [] then Missing(missing)
    else if MontantVentes !in t.numeric then BadType(MontantVentes)
    else if QuantiteVendue !in t.numeric then BadType(QuantiteVendue)
    else Loaded(t)
  }

  /** The rows with `MonthOrder` set from the `Month` label, or `None` as
      soon as one label is not a calendar name. */
  function AddMonthOrder(rows: seq<Row>): (r: Option<seq<Row>>)
    requires forall i :: 0 <= i < |rows| ==> Month in rows[i]
    ensures r.None? <==> exists i :: 0 <= i < |rows| && MonthNumber(rows[i][Month]).None?
    ensures r.Some? ==> |r.value| == |rows| && forall i :: 0 <= i < |rows| ==>
      r.value[i] == rows[i][MonthOrder := Num(MonthNumber(rows[i][Month]).value as real)]
  {
    if |rows| == 0 then Some([])
    else
      match MonthNumber(rows[0][Month])
      case None => None
      case Some(k) =>
        match AddMonthOrder(rows[1..])
        case None => None
        case Some(rest) => Some([rows[0][MonthOrder := Num(k as real)]] + rest)
  }

  /** `u` is `t` with one more numeric column, `MonthOrder`, holding on
      every row the calendar number of that row's `Month` label, every
      other cell unchanged. */
  ghost predicate NumberedFrom(t: Table, u: Table)
    requires Month in t.names
  {
    && u.names == t.names + [MonthOrder]
    && u.numeric == t.numeric + {MonthOrder}
    && |u.rows| == |t.rows|
    && forall i :: 0 <= i < |t.rows| ==>
         && MonthNumber(t.rows[i][Month]).Some?
         && u.rows[i].Keys == t.rows[i].Keys + {MonthOrder}
         && u.rows[i][MonthOrder] == Num(MonthNumber(t.rows[i][Month]).value as real)
         && forall c :: c in t.rows[i] ==> u.rows[i][c] == t.rows[i][c]
  }

  /** Adds `MonthOrder` unless the table already has it. One label that is
      not a calendar name fails the whole load. */
  function NormalizeMonths(t: Table): (r: LoadResult)
    requires Month in t.names
    ensures r.Loaded? || r.UnknownMonth?
    ensures MonthOrder in t.names ==> r == Loaded(t)
    ensures MonthOrder !in t.names ==>
      (r.UnknownMonth? <==> exists i :: 0 <= i < |t.rows| && MonthNumber(t.rows[i][Month]).None?)
    ensures MonthOrder !in t.names && r.Loaded? ==> NumberedFrom(t, r.table)
  {
    if MonthOrder in t.names then Loaded(t)
    else
      match AddMonthOrder(t.rows)
      case None => UnknownMonth
      case Some(rows) =>
        var f := Frame(t.names + [MonthOrder], t.numeric + {MonthOrder}, rows);
        assert ColumnSet(f.names) == ColumnSet(t.names) + {MonthOrder};
        assert WellFormed(f);
        Loaded(f)
  }

  /** The whole load: dispatch on the extension, parse, validate, then
      number the months. A failure at one stage skips every later one. */
  function Load(name: string, parse: Format -> Option<Table>): (r: LoadResult)
    ensures r.Unsupported? <==> FormatOf(name).None?
    ensures r.ParseFailed? <==> FormatOf(name).Some? && parse(FormatOf(name).value).None?
    ensures r.Loaded? ==> IsDataset(r.table)
  {
    match FormatOf(name)
    case None => Unsupported
    case Some(f) =>
      match parse(f)
      case None => ParseFailed
      case Some(t) =>
        match Validate(t)
        case Loaded(v) => NormalizeMonths(v)
        case failure => failure
  }

  /** Normalising a normalised table changes nothing. */
  lemma NormalizeIdempotent(t: Table)
    requires Month in t.names
    ensures NormalizeMonths(t).Loaded?
      ==> NormalizeMonths(NormalizeMonths(t).table) == NormalizeMonths(t)
  {
    var r := NormalizeMonths(t);
    if MonthOrder !in t.names && r.Loaded? {
      assert r.table.names == t.names + [MonthOrder];
      assert r.table.names[|t.names|] == MonthOrder;
    }
  }

  /** On a successful numbering every row carries the calendar position of
      its own label: 1 for January up to 12 for December, so equal labels
      get equal numbers and later months larger ones. */
  lemma {:induction false} NumberedCalendar(t: Table, u: Table)
    requires Month in t.names
    requires NumberedFrom(t, u)
    ensures forall i :: 0 <= i < |t.rows| ==>
      exists p :: 0 <= p < 12 && t.rows[i][Month] == Text(MonthNames[p])
    ensures forall i :: 0 <= i < |t.rows| ==> forall p :: 0 <= p < 12 && t.rows[i][Month] == Text(MonthNames[p]) ==>
      u.rows[i][MonthOrder] == Num((p + 1) as real)
  {
    MonthNumberCalendar();
    forall i | 0 <= i < |t.rows|
      ensures exists p :: 0 <= p < 12 && t.rows[i][Month] == Text(MonthNames[p])
    {
      assert MonthNumber(t.rows[i][Month]).Some?;
      var p := MonthNumber(t.rows[i][Month]).value - 1;
      assert 0 <= p < 12 && t.rows[i][Month] == Text(MonthNames[p]);
    }
    forall i | 0 <= i < |t.rows|
      ensures forall p :: 0 <= p < 12 && t.rows[i][Month] == Text(MonthNames[p]) ==>
        u.rows[i][MonthOrder] == Num((p + 1) as real)
    {
      forall p | 0 <= p < 12 && t.rows[i][Month] == Text(MonthNames[p])
        ensures u.rows[i][MonthOrder] == Num((p + 1) as real)
      {
        assert MonthNumber(t.rows[i][Month]) == Some(p + 1);
      }
    }
  }

  /** Only the parser the extension selects is ever consulted: none at all
      for an unsupported name. */
  lemma LoadUsesOneParser(name: string, parse: Format -> Option<Table>, other: Format -> Option<Table>)
    requires FormatOf(name).Some? ==> parse(FormatOf(name).value) == other(FormatOf(name).value)
    ensures Load(name, parse) == Load(name, other)
  {
  }

  /** Once a table is parsed the checks run in a fixed order and the first
      one that fails decides the result: missing columns (all of them),
      then the dtype of `MontantVentes`, then that of `QuantiteVendue`,
      then the month labels. */
  lemma LoadStages(name: string, parse: Format -> Option<Table>)
    requires FormatOf(name).Some? && parse(FormatOf(name).value).Some?
    ensures var t := parse(FormatOf(name).value).value;
      Load(name, parse) ==
        if MissingColumns(t.names) != [] then Missing(MissingColumns(t.names))
        else if MontantVentes !in t.numeric then BadType(MontantVentes)
        else if QuantiteVendue !in t.numeric then BadType(QuantiteVendue)
        else NormalizeMonths(t)
  {
  }
}
