# Sales dashboard core, modelled in Dafny

This project models the non-UI logic of a Streamlit sales-reporting
dashboard (`app.py`). A user uploads a CSV or Excel file of sales records.
The dashboard validates and normalises the file into a table, then computes
the figures its report pages show.

The model has two parts.

- **Loading** (`Loader`, on top of `Frames`, `Cells` and `Months`).
  - It dispatches on the file extension. Parsing is an opaque parameter
    `parse: Format -> Option<Table>`.
  - It reports every missing required column at once.
  - It checks the dtype of `MontantVentes`, then of `QuantiteVendue`.
  - It derives `MonthOrder` (1 to 12) from full English month names unless
    the table already has that column. A single unrecognised label fails
    the whole load.
- **Reports** (`Reports`, on top of `Sales`, `Grouping` and `Collections`).
  - The analysis page computes totals, the mean, sales per country
    (largest first) and sales per `(Month, MonthOrder)` (increasing
    `MonthOrder`).
  - The interactive page computes the filter options and the
    (countries, months) selection, with its two warning states. It then
    builds the quantity table per (customer, product), the customer options
    and the five default customers, and the shown table.

Module layout:

- `Collections`: Option, filter, de-duplication, insertion sort.
- `Cells`: a cell is a number or a string. The order on cells models
  Python's comparisons.
- `Frames`: a parsed table is a frame whose rows all have the same keys and
  whose numeric columns hold only numbers. This invariant is a subset type.
- `Months`: the calendar mapping.
- `Loader`: the load pipeline.
- `Sales`: the loaded table seen as records.
- `Grouping`: group-by-sum.
- `Reports`: the two pages.
- `Dashboard`: what a successful load guarantees about the reports.
- `Scenarios`: small concrete uploads and datasets worked through the model.

Amounts are `real`, not floating point. A load that fails is one
`LoadResult` constructor per message the dashboard shows. A report that
stops on a warning is `Outcome.Warn`.

Some behaviours of `app.py` worth knowing:

- An unrecognised month label fails the load. No fallback numbering (by
  first appearance, say) is built.
- Only the first non-numeric amount column is reported.
- The mean of no records is undefined (pandas gives NaN), not 0.
- The descending sort of the country ranking promises no particular order
  among ties.
- The two modelled pages, `page_analysis_report` and `page_interactive_report`,
  have no top-products view and no per-country percentage view.

## Model

| member | source | states |
|---|---|---|
| Loader.FormatOf | app.py:7-13 | a name goes to the CSV parser exactly when it ends in `.csv`, and to the spreadsheet parser exactly when it ends in `.xlsx` or `.xls`; the two cases never overlap |
| Loader.FormatOfSuffix | app.py:7-13 | whatever precedes it, the suffix alone decides: `.csv`, `.xlsx` and `.xls` are dispatched and `.txt` is refused |
| Loader.LoadUsesOneParser | app.py:7-13 | the load depends only on the parser the extension selects; for an unsupported name no parser is consulted at all |
| Loader.MissingColumns | app.py:20-21 | exactly the required columns absent from the table, each once, in the order of the required list |
| Loader.Validate | app.py:19-32 | fails with the missing-column list (each absent required column once, in required-list order) if and only if a required column is absent, and then no dtype is checked; otherwise reports `MontantVentes` if it is non-numeric, else `QuantiteVendue` if that is non-numeric, else passes the table through unchanged |
| Loader.AddMonthOrder | app.py:40-43 | the month numbering fails if and only if some row's label is not a calendar name; otherwise every row gains `MonthOrder` and nothing else changes |
| Loader.NormalizeMonths | app.py:34-45 | a table that already has `MonthOrder` is returned unchanged; otherwise the load fails if and only if one label is unrecognised, and on success the table gains one numeric `MonthOrder` column holding each row's calendar number, every other cell unchanged |
| Loader.NormalizeIdempotent | app.py:35-45 | normalising a normalised table changes nothing |
| Loader.NumberedCalendar | app.py:36-40 | after numbering, every row's label is one of the twelve names and its `MonthOrder` is that name's calendar position (January 1 to December 12), so equal labels get equal numbers and later months larger ones |
| Loader.Load | app.py:3-45 | unsupported exactly when the extension is not recognised; a parse failure exactly when the selected parser fails; a loaded table always has the required columns, numeric amount columns and a `MonthOrder` column |
| Loader.LoadStages | app.py:19-45 | after parsing, the first failing check decides the result: missing columns, then the `MontantVentes` dtype, then the `QuantiteVendue` dtype, then the month labels |
| Months.MonthNumber | app.py:36-40 | a recognised label is a string, and its number n is between 1 and 12 with the n-th calendar name equal to the label |
| Months.MonthNumberCalendar | app.py:36-39 | each of the twelve names maps to its calendar position, strictly increasing from January to December |
| Months.MonthNumberRecognises | app.py:36-41 | a label is recognised if and only if it is one of the twelve full English month names (case-sensitive); numbers never are |
| Grouping.GroupSumIsGrouping | app.py:97 | group-by-sum yields one group per distinct key and no other; each group holds the sum of its key's values, and the group totals add up to the overall total |
| Grouping.SortByGrouping | app.py:103 | reordering the groups by any order keeps the same groups with the same totals |
| Reports.AverageSales | app.py:87 | on a non-empty dataset, the mean times the number of rows is the total sales |
| Reports.CountryRanking | app.py:97 | one entry per country holding that country's sales; the entries add up to the total sales; they are in non-increasing order of sales |
| Reports.MonthlySeries | app.py:102-103 | one entry per (Month, MonthOrder) pair holding that pair's sales; the entries add up to the total sales; they are in non-decreasing `MonthOrder` |
| Reports.AnalysisReport | app.py:85-103 | the headline sales total is the `MontantVentes` sum and equals the sums of both the country ranking and the monthly series; the quantity total is the `QuantiteVendue` sum; the ranking is the per-country grouping in non-increasing order and the series the per-(Month, MonthOrder) grouping in non-decreasing `MonthOrder` |
| Reports.CountryOptions | app.py:141 | the distinct countries of the dataset, each once, in increasing order |
| Reports.MonthOptions | app.py:150 | the distinct month labels, each once, ordered by the `MonthOrder` of each label's first row; labels tied on that number keep their first-appearance order, as Python's stable `sorted` does |
| Reports.MonthOptionsStable | app.py:150 | sorting the first-appearance list of labels by their first `MonthOrder` never swaps two tied labels |
| Reports.Matching | app.py:163-166 | a record is kept, with all its copies, if and only if its country and its month are both selected |
| Reports.MatchingAppend | app.py:163-166 | the selection keeps relative order: selecting from a concatenation concatenates the selections |
| Reports.Select | app.py:157-170 | refused with a warning if and only if either selection is empty; otherwise a distinct warning if and only if no record matches; otherwise the non-empty matching records |
| Reports.DefaultSelectionKeepsAll | app.py:141-166 | with every option chosen (the default), a non-empty dataset is kept whole; an empty one has no options and is refused |
| Reports.CustomerProductTable | app.py:179 | one row per (CustomerID, ProductName) pair holding that pair's quantity; the rows add up to the total quantity of the selected records |
| Reports.CustomerOptions | app.py:182 | the distinct customers of the quantity table, each once, in increasing order |
| Reports.DefaultCustomers | app.py:182-187 | at most five distinct customers from the table, in increasing order; all of them when there are fewer than five; every chosen ID sorts strictly before every ID left out |
| Reports.ShownTable | app.py:190 | a table row is shown, with all its copies, if and only if its customer is selected |
| Reports.ShownTableAllCustomers | app.py:182-190 | selecting every customer option shows the whole table |
| Reports.ShownTableGroups | app.py:179-190 | the shown rows have distinct keys and belong to selected customers, each with its pair's full quantity; every pair of a selected customer is shown |
| Reports.InteractiveReport | app.py:157-187 | the page warns exactly when the selection does, with the same warning; otherwise its table is the per-(CustomerID, ProductName) quantity grouping of the matching records, adding up to their quantity; the customer options are that table's sorted distinct customers and the defaults the first five of them |
| Dashboard.LoadedIsNumbered | app.py:19-43 | a successful load of a table without its own `MonthOrder` is that table with the calendar numbers added |
| Dashboard.SeriesOfNumberedRecords | app.py:102-103 | over records carrying their labels' calendar numbers, the monthly series pairs each name with its number and runs in calendar order |
| Dashboard.NumberedRecords | app.py:35-40 | when the loader added `MonthOrder`, every record of the loaded table carries the calendar number of its own month label |
| Dashboard.LoadedSeriesInCalendarOrder | app.py:35-103 | for an upload without its own `MonthOrder` that loads, every entry of the monthly series pairs a calendar name with its number, and the series runs in calendar order |
| Scenarios.CsvUpload | app.py:7-45 | a file named `sales.csv` is read with the CSV parser, then validated, and on success has its months numbered; a validation failure is the result |
| Scenarios.TextUpload | app.py:7-13 | a file named `sales.txt` is refused as unsupported, whatever the parsers would return |
| Scenarios.NoAmountMissing | app.py:20-24 | a header with every required column but `MontantVentes` fails validation naming that column and no other |
| Scenarios.MissingAmountExample | app.py:7-24 | uploading that header as CSV fails the load naming `MontantVentes` alone |
| Scenarios.AbbreviatedMonthExample | app.py:19-43 | a row whose month reads `Jan` passes the column and dtype checks but fails the month numbering |
| Scenarios.TwoMonthsExample | app.py:97-103 | two French sales, 20 in January and 10 in February: one country worth 30, and the series January 20 then February 10 |
| Scenarios.CustomerTableExample | app.py:179 | the same customer buying the same product twice, quantities 2 and 1: one (customer, product) row with quantity 3 |
| Scenarios.SelectionExample | app.py:157-170 | on those sales, an empty country list is refused, a country with no sales gives the no-match warning, and France in January keeps the January sale alone |

## Left out

- The pages `page_home`, `page_create_new`, `page_manage_data`, `page_documentation` and `page_dashboard` (called at app.py:243-257). Their bodies are not part of this model's source, so nothing about them is modelled.
- Streamlit widgets, page routing and `st.session_state` (app.py:51-68, 230-261). These are UI plumbing. The pages' "no data loaded" check (app.py:75-77, 127-129) belongs to that session state. The selections arrive as parameters.
- The default-file fallback when nothing is uploaded (app.py:14-17). It reads a fixed placeholder path from disk.
- The exception handler (app.py:46-48) and `@st.cache_data`. Every parse failure is the single `ParseFailed` result. No other step of the model can fail.
- The CSV and Excel parsing. It is the opaque `parse` parameter and returns a well-formed table or nothing.
- Missing values (NaN) in cells. Every cell holds a number or a string. So pandas' skipping of NaN in sums and groups is not modelled.
- Comparisons between a number and a string, which raise in Python. `CellLe` puts numbers first instead, so every sort is defined.
- Plotly charts and tables (app.py:105-115, 196-214), the currency formatting (app.py:90-93) and the CSV export (app.py:218-223). These are rendering and serialisation only.
- The display order of the customer-by-product table. pandas sorts groups by key; the model keeps them in first-encounter order. The properties stated do not depend on this order.
- Reports.CountryRanking: promises only non-increasing order, not a tie order. pandas' default sort is not stable.
- Reports.AverageSales: requires a non-empty dataset. On an empty one pandas gives NaN.
- The `MonthOrder` column is added as a numeric column even on an empty table, where pandas' resulting dtype may differ. Nothing downstream reads that dtype.
