# Supermarket sales dashboard: the data pipeline

A Dafny model of the data handling behind the Streamlit dashboard `app.py`.
It covers how the sheet's column labels are normalised on load, how the
sidebar criteria select the rows, the overview figures and the seven-day
trend headline, the per-day, per-category and per-city sums behind the
charts, and the product search over the detail listing.

The model is organised in six modules:

- `Seqs`: order-preserving selection, which is the shape shared by the row
  mask, the search and the quote removal.
- `Text`: the string operations with Python's meaning. These are
  `str.strip()`, quote removal, the `in` substring test, the case folding
  used by the search, and the code-point order pandas sorts string keys by.
- `Columns`: the label cleaning and the region-column repair of
  `load_sales_data`.
- `Grouping`: `groupby(key)[amount].sum()` with pandas' default sorted keys.
  It is modelled as insertion into an ascending list of groups and proved
  against a reference "sum for this key".
- `Trend`: the recent and previous windows, the percentage change, and the
  direction/magnitude headline.
- `Sales`: the record, the mask, the overview, the three breakdowns, the
  city map rows with the coordinate table, the search, and one page refresh
  (`Dashboard`).

Representation choices:

- Money is an integer number of cents (`总金额`), so sums are exact and
  independent of order.
- A date is the integer day number of `日期_仅日期`.
- Trend means are exact rationals (`real`).
- A column label is either a string or some other value, kept as the text
  `str()` gives for it.

## Model

| member | source | states |
|---|---|---|
| `Text.RemoveQuotes` | app.py:29 | the result has no `"` or `'`, holds every other character exactly as often as the input, and leaves a quote-free label unchanged; its order is fixed by `Text.RemoveQuotesAppend` and `Text.RemoveQuotesChar` |
| `Text.RemoveQuotesAppend` | app.py:29 | removing the quotes of a concatenation is concatenating the quote-free parts, so the kept characters stay in their order |
| `Text.RemoveQuotesChar` | app.py:29 | a single quote character is deleted and any other character is kept |
| `Text.Strip` | app.py:29 | the result is a slice of the input with no whitespace (Python's `isspace` set) at either end, everything cut off on both sides is whitespace, and an already stripped string is returned as is |
| `Text.StripQuoteFree` | app.py:29 | stripping after quote removal cannot reintroduce a quote |
| `Text.ContainsAt` | app.py:38 | an occurrence of the marker at any offset makes the `in` test true |
| `Text.ContainsHasOffset` | app.py:38 | a true `in` test has an offset where the marker occurs, so the test is exactly "occurs somewhere" |
| `Text.Lower` | app.py:384 | the search's case folding keeps length and folds position by position |
| `Text.LowerIdempotent` | app.py:384 | folding an already folded keyword changes nothing |
| `Text.StrLessIrreflexive` | app.py:294-298 | no string sorts before itself in the order group keys are sorted by |
| `Text.StrLessTransitive` | app.py:294-298 | the string key order is transitive |
| `Text.StrLessTotal` | app.py:294-298 | any two different string keys are ordered one way or the other |
| `Columns.CleanText` | app.py:29 | the result is a slice of the quote-free text with only whitespace cut from either end; it is quote-free and stripped; a quote-free stripped label is unchanged |
| `Columns.CleanLabel` | app.py:28-31 | string labels become the cleaned text of their string; non-string labels pass through untouched; the kind of a label never changes; the result is clean and a clean label is unchanged |
| `Columns.CleanLabels` | app.py:26-33 | same number of columns in the same order, each cleaned on its own, all clean afterwards |
| `Columns.CleanLabelsIdempotent` | app.py:26-33 | cleaning an already cleaned header is a no-op |
| `Columns.Candidates` | app.py:38 | the candidates are exactly the labels whose text contains `地区`, each as often as it occurs in the header, one per candidate position |
| `Columns.CandidatesAppend` | app.py:38 | the candidates of a split header are those of the first part followed by those of the second, so they keep header order |
| `Columns.SingleCandidatePosition` | app.py:38-40 | with one candidate, no second position holds a candidate, so renaming that label touches one column only |
| `Columns.RepairRegion` | app.py:36-40 | an existing `销售地区` column, or zero or several candidates, leave the header unchanged; exactly one candidate is renamed to `销售地区` and every other label is kept |
| `Columns.RegionResolvable` | app.py:36-40 | after the repair `销售地区` exists if and only if it existed before or exactly one label was a candidate |
| `Columns.RepairKeepsClean` | app.py:36-40 | renaming a candidate in a clean header keeps every label clean |
| `Columns.RepairFromClean` | app.py:25-40 | the repair of the cleaned header, read position by position against the original labels: each position is its cleaned label or `销售地区`, only the single candidate is renamed, and `销售地区` ends up present exactly when it was there or one label was a candidate |
| `Columns.Normalize` | app.py:25-40 | the normalised header has the same width and only clean labels; an existing `销售地区` after cleaning, or a candidate count other than one, leaves the cleaned header unchanged; otherwise exactly the candidate position becomes `销售地区` and every other position holds its cleaned label; `销售地区` is present exactly when it was present after cleaning or exactly one cleaned label was a candidate |
| `Columns.NormalizeIdempotent` | app.py:25-40 | normalising a normalised header changes nothing |
| `Grouping.Insert` | app.py:216-218 | adding one amount keeps the groups strictly ascending, adds its key to the key set, raises exactly that key's sum, and raises the total by the amount |
| `Grouping.GroupSum` | app.py:216-218 | the groups are strictly ascending by key, have exactly the input's keys, hold for every key the input's sum for it, and keep the total |
| `Grouping.EntryIsSumFor` | app.py:216-218 | in ascending groups each entry's amount is the whole sum for its key |
| `Grouping.AscendingCount` | app.py:216-218 | ascending groups have one entry per distinct key |
| `Grouping.GroupSumMeaning` | app.py:216-218 | the group-by has as many rows as distinct keys, and each row holds the input's sum for its key |
| `Grouping.InsertTotalWhere` | app.py:335-343 | adding one amount changes the total of any key subset by that amount exactly when its key is in the subset |
| `Grouping.GroupSumTotalWhere` | app.py:335-343 | for any subset of keys, the groups in it hold exactly the input amounts filed under it |
| `Grouping.FilterTotal` | app.py:343 | dropping the groups whose key fails a test keeps exactly the total of the passing keys |
| `Trend.Tail` | app.py:223 | `tail(k)` is the last `k` entries, or all of them when there are fewer |
| `Trend.Head` | app.py:225 | `head(k)` is the first `k` entries, or all of them when there are fewer |
| `Trend.RecentWindow` | app.py:223 | with seven or more days, the recent window is exactly the last seven |
| `Trend.PreviousWindow` | app.py:225 | with fourteen or more days, the previous window is days n-14 to n-8; with 7 to 13 days it is the first seven; with fewer it is all of them |
| `Trend.WindowsAdjacent` | app.py:223-225 | from fourteen days on, previous and recent window together are exactly the last fourteen days |
| `Trend.WindowsOverlap` | app.py:223-225 | with 8 to 13 days the two windows share their middle days |
| `Trend.Change` | app.py:228-231 | no positive baseline gives 0; otherwise the percentage times the baseline is 100 times the difference of the means; the sign is non-negative exactly when the recent mean is not below the baseline |
| `Trend.TrendPct` | app.py:223-233 | seven days or fewer give 0; a non-positive previous mean gives 0; otherwise it is the relative change of the recent mean over the previous mean in percent; it is non-negative exactly in those cases or when the recent mean is not lower |
| `Trend.Describe` | app.py:235-236 | the direction is "up" exactly when the change is non-negative; the magnitude is never negative; direction and magnitude together give back the signed change |
| `Trend.Analyze` | app.py:223-236 | a short history reports "up 0%"; the headline says "up" exactly when the history is short, the baseline is not positive, or the recent mean is not lower; the magnitude is non-negative, and direction with magnitude give back the signed trend percentage |
| `Trend.Headline` | app.py:228-236 | no positive baseline reports "up 0%"; otherwise the magnitude times the baseline is 100 times the distance of the two means; "up" exactly when the recent mean is not lower; the signed headline is the percentage change |
| `Trend.Magnitude` | app.py:228-236 | with a positive baseline, the displayed magnitude scaled by the baseline is 100 times the distance of the means, whichever way the change goes |
| `Seqs.Filter` | app.py:96 | selection never adds rows, and keeps everything when every row passes |
| `Seqs.FilterContents` | app.py:96 | the selection holds every passing element as often as the input does, and nothing else |
| `Seqs.FilterAppend` | app.py:96 | selecting from a concatenation is concatenating the selections, so no row overtakes another |
| `Seqs.FilterIdempotent` | app.py:96 | applying the same selection twice keeps the same rows |
| `Seqs.FilterSameTest` | app.py:383-385 | two tests that agree on every element select the same rows |
| `Seqs.FilterOrdered` | app.py:58 | a selection of an ordered sequence keeps that order |
| `Seqs.Reverse` | app.py:380 | reversal keeps length and contents and mirrors the positions |
| `Sales.FilterView` | app.py:90-96 | a row is in the view as often as in the store exactly when its day is in the inclusive range and its category and region are selected; an inverted range or an empty selection gives an empty view |
| `Sales.FilterViewAscending` | app.py:58 | a store sorted by date gives a view sorted by date |
| `Sales.FilterViewAppend` | app.py:90-96 | the view of a concatenated store is the concatenation of the views |
| `Sales.FilterViewSingle` | app.py:90-96 | the view of one row is that row exactly when the mask holds for it |
| `Sales.SelectFirst` | app.py:90-96 | a selected row followed by an unselected one yields a view holding the first row alone |
| `Sales.TwoRecordScenario` | app.py:90-96 | a store with a fruit sale and a vegetable sale, filtered to fruit, keeps only the fruit sale |
| `Sales.Search` | app.py:382-385 | an empty keyword keeps the listing; any other keyword keeps exactly the matching rows with their multiplicities, and no others; its order is fixed by `Sales.SearchAppend` and `Sales.SearchSingle` |
| `Sales.SearchAppend` | app.py:382-385 | searching a concatenated listing is concatenating the searches, so kept rows stay in listing order |
| `Sales.SearchSingle` | app.py:382-385 | a one-row listing keeps its row exactly when the keyword is empty or matches it |
| `Sales.SearchDescending` | app.py:380-385 | searching a newest-first listing gives a newest-first result |
| `Sales.SearchIgnoresCase` | app.py:384 | a keyword and its lower-case form find the same rows |
| `Sales.ReversedViewIsListing` | app.py:380 | reversing the date-ascending view gives a newest-first ordering of the same rows |
| `Sales.SalesTotalSplit` | app.py:211 | the rows passing a test and the rows failing it share the view's total |
| `Sales.ProductsBound` | app.py:213 | a non-empty view has at least one and at most one-per-row distinct products |
| `Sales.Project` | app.py:216-217 | each row becomes its (key, amount) pair, in order |
| `Sales.ProjectTotal` | app.py:217-218 | projecting rows keeps the total |
| `Sales.ProjectSumFor` | app.py:217-218 | the projected sum for a key is the total of the view's rows with that key |
| `Sales.ProjectKeys` | app.py:217 | the projected keys are the keys present in the view |
| `Sales.ProjectTotalWhere` | app.py:335-343 | the projected amounts of a key subset are the total of the rows whose key is in it |
| `Sales.Breakdown` | app.py:216-218 | one entry per key present in the view, strictly ascending, each holding the sum of its rows, and together the view's total |
| `Sales.BreakdownTotalWhere` | app.py:335-343 | the breakdown's entries for a key subset total the view rows with keys in it |
| `Sales.IntLessIsOrder` | app.py:216-221 | dates are sorted by a strict total order |
| `Sales.StrLessIsOrder` | app.py:294-298 | category and region keys are sorted by a strict total order |
| `Sales.DailySales` | app.py:216-221 | one entry per day present, strictly ascending by date, each day's sum; days without sales are absent; the entries total the view |
| `Sales.CategorySales` | app.py:294-298 | one entry per category present, in code-point order, each category's sum, together the view's total |
| `Sales.KeepMapped` | app.py:341-343 | keeps the ascending groups with coordinates, in order, with their total |
| `Sales.MappedGroups` | app.py:341-343 | the kept groups are groups of the input with coordinates, and every group with coordinates is kept |
| `Sales.MappedRegions` | app.py:335-343 | the mapped groups are the view's regions that have coordinates, one each, ascending, with their sums and the total of the mapped rows |
| `Sales.ToPoints` | app.py:341-342 | each mapped group becomes a map point carrying its region's coordinates and its sum |
| `Sales.PointRegions` | app.py:341-342 | the points' regions are exactly the groups' keys |
| `Sales.CitySales` | app.py:321-343 | one point per region of the view that is in the coordinate table, at that table's coordinates, holding the region's sum, in code-point order, together the total of the rows in mapped regions |
| `Sales.CityConservation` | app.py:335-343 | the map's sums plus the sales of regions without coordinates are the view's total |
| `Sales.Overview` | app.py:208-236 | no summary exactly for an empty view; otherwise the total is the view's sales total and equals the daily series' total, orders are the row count, products are the distinct products and lie between 1 and the row count, and the headline is the trend report `Trend.Analyze` gives for the daily series (so "up" exactly when the trend percentage is not negative, with its absolute value as magnitude); a history of seven days or fewer reports "up 0%" |
| `Sales.PageOf` | app.py:205-343 | for a view and a coordinate table, each part is what its own operation gives for the view: the overview of `Sales.Overview`, the daily series of `Sales.DailySales`, the categories of `Sales.CategorySales` and the map of `Sales.CitySales`; restated at page level: an overview exactly for a non-empty view with the view's total, row count and the daily trend; each day and each category of the view with its sum, days in date order; both charts total the view; the map holds tabled regions with their sums, which with the unmapped sales make up the view's total; an empty view gives empty charts |
| `Sales.PageParts` | app.py:205-343 | for any view, the overview exists exactly when the view is non-empty and carries its total, row count and daily trend; the map's points are tabled regions whose sums with the unmapped sales make up the view's total; an empty view has no overview and empty charts |
| `Sales.EmptyCharts` | app.py:208-209 | an empty view has no days, no categories and no map points |
| `Sales.SingleRowDaily` | app.py:216-221 | a one-row view has one day, holding that row's amount |
| `Sales.SingleRowCategories` | app.py:294-298 | a one-row view has one category, holding that row's amount |
| `Sales.SingleRowOverview` | app.py:211-236 | a one-row view shows its amount, one order, one product and "up 0%" |
| `Sales.Dashboard` | app.py:205-343 | the view is what `Sales.FilterView` selects from the store: the selected rows in store order, each as often as the store holds it, and no other; an empty selection or inverted range gives an empty view; the rest of the page is the one `Sales.PageOf` draws for that view and the coordinate table, so the overview, line chart, pie chart and map are those of `Sales.Overview`, `Sales.DailySales`, `Sales.CategorySales` and `Sales.CitySales`, and they agree on the view's total as `Sales.PageOf` states |
| `Sales.TwoRecordDashboard` | app.py:205-298 | for the fruit/vegetable store filtered to fruit, the page shows 10.00 total, one order, one product, "up 0%", one day and one category |

## Left out

- Reading the workbook (`pd.read_excel`), the five-minute cache keyed on the
  file's modification time, and the missing-file message (app.py:18-24,
  48-55): I/O. The model starts from the header labels and from the record
  store.
- The `日期` conversion with `pd.to_datetime` (app.py:44-45) and the
  date-only column (app.py:59): dates arrive as day numbers. Unparseable
  dates are not modelled.
- `sort_values("日期")` (app.py:58) and `sort_values("日期", ascending=False)`
  (app.py:380): sorting is not modelled. The store's date order is a
  precondition where it matters (`Sales.FilterViewAscending`). The detail
  listing is a parameter of `Sales.Search`. `Sales.ReversedViewIsListing`
  shows one admissible newest-first listing; pandas' tie order among rows of
  the same date is not modelled.
- The sidebar widgets and their defaults (app.py:63-88): the chosen range and
  sets are the input `Criteria`. Streamlit's handling of a half-chosen date
  range is not modelled.
- Everything drawn (cards, HTML, Plotly charts, colours, the table columns,
  `tail(30)` of the last-30-days chart): presentation only.
- A column label that is not a string is kept as the text `str()` gives for
  it. Python's `str()` rules for such values are not modelled.
- A `KeyError` on `df["销售地区"]` when the repair fails: `Columns.RegionResolvable`
  states exactly when the column exists, and the error itself is not modelled.
- `Sales.Search`: `str.contains(keyword, case=False)` treats the keyword as a
  regular expression and folds case by full Unicode rules. The model matches
  it as a literal substring after folding ASCII letters only, so keywords
  with regex syntax or non-ASCII case pairs are outside the model.
  `na=False` is not modelled, because product names are always strings here.
- `Trend.TrendPct`, `Trend.Change`: floating-point means and division are
  exact rational arithmetic here. Rounding and NaN are not modelled.
- `Sales.CitySales`: coordinates are kept as the table's decimal numbers.
  The `(None, None)` / `dropna` route is modelled as membership in the
  coordinate table, which selects the same regions.
- `Sales.PageOf`: the map is drawn only when it has points, and the
  charts only for a non-empty view. The model always computes them (empty
  when there is nothing to show).
- The sample data generator `generate_supermarket_sales.py` is not part of
  this model.
- The headline compares the last seven entries of the daily series with
  `tail(14).head(7)`, which the surrounding comment calls "the previous 7
  days". The model follows the code:
  - there is no calendar gap handling (missing days are simply absent
    entries);
  - with 8 to 13 days the previous window is the first seven days, and it
    overlaps the recent one (`Trend.WindowsOverlap`);
  - the guard is `prev_avg > 0`, so a zero or negative baseline reports
    "up 0%".
