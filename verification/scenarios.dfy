/** Worked examples: small concrete tables worked through the model. */
module Scenarios {
  import opened Collections
  import opened Cells
  import opened Frames
  import opened Grouping
  import opened Loader
  import opened Sales
  import opened Reports
  import opened Months

  /** A header with every required column except `MontantVentes`, and no rows. */
  const NoAmountTable: Table :=
    Frame([Country, Month, CustomerID, ProductName, QuantiteVendue], {QuantiteVendue}, [])

  /** Validating that header reports `MontantVentes` and no other column. */
  lemma NoAmountMissing()
    ensures Validate(NoAmountTable).Missing?
    ensures forall c :: c in Validate(NoAmountTable).columns <==> c == MontantVentes
  {
    var names := NoAmountTable.names;
    assert MontantVentes !in names;
    assert forall c :: c in Required && c != MontantVentes ==> c in names;
  }

  /** A `.csv` upload is read by the CSV parser, validated, and on success
      has its months numbered. */
  lemma CsvUpload(parse: Format -> Option<Table>, t: Table)
    requires parse(Csv) == Some(t)
    ensures Load("sales.csv", parse) ==
      match Validate(t)
      case Loaded(v) => NormalizeMonths(v)
      case failure => failure
  {
    assert FormatOf("sales.csv") == Some(Csv) by {
      FormatOfSuffix("sales");
      assert "sales" + ".csv" == "sales.csv";
    }
  }

  /** A `.txt` upload is refused before any parsing. */
  lemma TextUpload(parse: Format -> Option<Table>)
    ensures Load("sales.txt", parse) == Unsupported
  {
  }

  /** Uploading a CSV without `MontantVentes` reports that column and no
      other. */
  lemma MissingAmountExample(parse: Format -> Option<Table>)
    requires parse(Csv) == Some(NoAmountTable)
    ensures Load("sales.csv", parse).Missing?
    ensures forall c :: c in Load("sales.csv", parse).columns <==> c == MontantVentes
  {
    NoAmountMissing();
    CsvUpload(parse, NoAmountTable);
  }

  const Jan := Record(Text("FR"), Text("January"), Num(1.0), Text("C1"), Text("A"), 2.0, 20.0)
  const Feb := Record(Text("FR"), Text("February"), Num(2.0), Text("C1"), Text("A"), 1.0, 10.0)

  /** Two French sales: one country group worth 30, and a monthly series
      January 20 then February 10. */
  lemma TwoMonthsExample()
    ensures CountryRanking([Jan, Feb]) == [Group(Text("FR"), 30.0)]
    ensures MonthlySeries([Jan, Feb]) ==
      [Group((Text("January"), Num(1.0)), 20.0), Group((Text("February"), Num(2.0)), 10.0)]
  {
    var rs := [Jan, Feb];
    assert rs[..1] == [Jan];
    assert [Jan][..0] == [];

    var countries := Entries(rs, CountryOf, Amount);
    assert countries == [(Text("FR"), 20.0), (Text("FR"), 10.0)];
    assert countries[..1] == [(Text("FR"), 20.0)];
    assert GroupSum(countries[..1]) == [Group(Text("FR"), 20.0)];
    assert GroupSum(countries) == [Group(Text("FR"), 30.0)];

    var jan := (Text("January"), Num(1.0));
    var feb := (Text("February"), Num(2.0));
    var months := Entries(rs, MonthKey, Amount);
    assert months == [(jan, 20.0), (feb, 10.0)];
    assert months[..1] == [(jan, 20.0)];
    assert GroupSum(months[..1]) == [Group(jan, 20.0)];
    assert jan != feb by {
      assert |jan.0.s| != |feb.0.s|;
    }
    assert Accumulate([Group(jan, 20.0)], feb, 10.0) == [Group(jan, 20.0), Group(feb, 10.0)];
    assert GroupSum(months) == [Group(jan, 20.0), Group(feb, 10.0)];
    assert MonthOrderLe(Group(jan, 20.0), Group(feb, 10.0));
    assert SortBy([Group(feb, 10.0)], MonthOrderLe) == [Group(feb, 10.0)];
  }

  /** The same customer bought the same product in both sales: one
      (customer, product) row holding the summed quantity 3. */
  lemma CustomerTableExample()
    ensures CustomerProductTable([Jan, Feb]) == [Group((Text("C1"), Text("A")), 3.0)]
  {
    var rs := [Jan, Feb];
    assert rs[..1] == [Jan];
    assert [Jan][..0] == [];
    var pair := (Text("C1"), Text("A"));
    var pairs := Entries(rs, CustomerProduct, Quantity);
    assert pairs == [(pair, 2.0), (pair, 1.0)];
    assert pairs[..1] == [(pair, 2.0)];
    assert GroupSum(pairs[..1]) == [Group(pair, 2.0)];
    assert GroupSum(pairs) == [Group(pair, 3.0)];
  }

  /** The selection on those two sales: nothing chosen is refused, a country
      with no sales gives the no-match warning, and France in January keeps
      the January sale alone. */
  lemma SelectionExample()
    ensures Select([Jan, Feb], [], [Text("January")]) == Warn(NothingSelected)
    ensures Select([Jan, Feb], [Text("DE")], [Text("January")]) == Warn(NoMatch)
    ensures Select([Jan, Feb], [Text("FR")], [Text("January")]) == Done([Jan])
  {
    var rs := [Jan, Feb];
    assert Text("FR") != Text("DE") by {
      assert "FR"[0] != "DE"[0];
    }
    assert !Keep(Jan, [Text("DE")], [Text("January")]);
    assert !Keep(Feb, [Text("DE")], [Text("January")]);
    var keep := KeepFn([Text("FR")], [Text("January")]);
    assert Text("February") != Text("January") by {
      assert |"February"| != |"January"|;
    }
    assert keep(Jan) && !keep(Feb);
    assert rs[1..] == [Feb] && [Feb][1..] == [];
    assert Filter([Feb], keep) == [];
    assert Filter(rs, keep) == [Jan];
  }

  /** One sale whose month is written "Jan": every column is present and
      both amounts are numeric, but the label is no full month name. */
  const AbbreviatedRow: Row := map[
    Country := Text("FR"), Month := Text("Jan"), CustomerID := Text("C1"),
    ProductName := Text("A"), QuantiteVendue := Num(2.0), MontantVentes := Num(20.0)]

  /** An abbreviated month label fails the whole load, after the columns
      and their types have passed. */
  lemma AbbreviatedMonthExample(t: Table)
    requires t.names == Required
    requires t.numeric == {QuantiteVendue, MontantVentes}
    requires t.rows == [AbbreviatedRow]
    ensures Validate(t) == Loaded(t)
    ensures NormalizeMonths(t) == UnknownMonth
  {
    assert MonthOrder !in t.names;
    assert MonthNumber(t.rows[0][Month]).None?;
  }
}
