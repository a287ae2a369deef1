# Admissions dashboard pipeline, modelled in Dafny

The dashboard (`gem.py`, with a near-copy in `Overview.py`) loads a table of
university admission rows. Each row has a year (`tahun`), regency/city,
province, level (`jenjang`), university (`nama_univ`), programme
(`nama_prodi`), applicants (`peminat`) and quota (`daya_tampung`). Under its
Streamlit, Altair and Plotly calls there is a small pure pipeline. This
project models that pipeline as Dafny functions over a sequence of rows, and
proves what each step promises:

- **Normalisation**: `str.title()` on the programme and university columns
  (module `TitleCase`).
- **Filtering**: `filter_data`, the mask `data[column].isin(values)`, or the
  table itself when nothing is selected. Its chained use, one selection per
  dimension, is also modelled (module `Filtering`). Only gem.py defines
  `filter_data` (gem.py:30), and its call sites there (gem.py:124-126) are
  commented out and name columns this dataset lacks; Overview.py neither
  defines nor calls it. The filtering that actually runs is
  `DynamicFilters.filter_df` (gem.py:110, Overview.py:44), an external
  library. The model takes its effect on the rows to be this chain of
  `filter_data` calls, one per filter column.
- **KPIs**: `calculate_kpis` gives total applicants and total quota, each
  with "." as the thousands separator. It also gives the ratio
  `"1:" + round(quota / applicants * 100)`, or the integer `0` when there are
  no applicants (modules `Kpi` and `NumberFormat`).
- **Top 10**: `groupby(key)[col].sum().nlargest(10)` for universities by
  quota, universities by applicants and programmes by applicants (module
  `Ranking`, with Python's string order in `KeyOrder`).

The same functions serve both files. `calculate_kpis`, the title-casing and the
three top-10 chains are duplicated almost verbatim between them, so the
`## Model` table cites either copy.

Modelling choices:
- A count cell is `Missing` or `Present(n)` with `n` a natural number, like
  pandas' nullable `Int64`. Every sum skips missing values, and an empty or
  all-missing column sums to 0.
- Every key column is a string, `tahun` included.
- Group keys are ordered the way Python orders `str`: code point by code
  point, with a proper prefix first. `groupby` emits its groups in that order.
- `nlargest` is taken to sort stably by descending total, so the earlier
  group wins a tie (see `Ranking.NLargest` under "## Left out"). The resulting ranking is by total, largest first, then by key.
- Python's `round` rounds half to even. The ratio is computed on the exact
  rational `quota * 100 / applicants`, so 15 quota over 120 applicants gives
  12.5, which rounds to `"1:12"` (`Kpi.HalfEvenExample`). Rounding half up
  would give `"1:13"`.
- `calculate_kpis` returns a three-element list. The model returns a record
  with the same three values in the same order: two strings, and a ratio that
  is either the integer sentinel 0 (`ZeroSentinel`) or a string.

## Model

| member | source | states |
|---|---|---|
| `Admissions.TotalAppend` | gem.py:35 | The sum of a count column over two tables put together is the sum of the two sums |
| `Admissions.TotalAllMissing` | gem.py:37 | A count column that is empty or all missing sums to 0 |
| `Admissions.TotalCountsEachPresent` | Overview.py:22 | Every present value is part of the column's sum, so the sum is at least that value |
| `Filtering.MatchingSpec` | gem.py:31 | The `isin` mask keeps a subsequence of the table: exactly the rows whose value is selected, each as often as in the input |
| `Filtering.FilterDataSpec` | gem.py:30-31 | With an empty value list the table comes back unchanged; otherwise the result is the input's selected rows in the input's order, with their multiplicities |
| `Filtering.SubsequenceLength` | gem.py:31 | A filtered table never has more rows than its input |
| `Filtering.FilterDataIdempotent` | gem.py:31 | Filtering twice with the same column and values equals filtering once |
| `Filtering.FilterDataCommute` | gem.py:124-126 | Filters on two columns applied in either order give the same table |
| `Filtering.FilterAllSpec` | gem.py:124-126 | Chained filters return a subsequence of the table that holds every copy of each row that every dimension with a non-empty selection admits, and nothing else; all-empty selections return the table; rows never increase |
| `KeyOrder.LessTotal` | gem.py:154 | Two different keys are always ordered one way or the other, so the group-by order is total |
| `KeyOrder.LessTransitive` | gem.py:159 | The key order is transitive |
| `KeyOrder.StrictlySortedCard` | gem.py:163 | A strictly ascending key list has no repeats: its length is the number of distinct keys |
| `NumberFormat.DecimalRoundTrip` | gem.py:41 | The decimal text of a whole number reads back to that number |
| `NumberFormat.FormatGrouped` | gem.py:36 | A formatted total is a leading group of 1-3 digits, then groups of "." and exactly three digits, and the whole text has no leading zero unless it is "0" |
| `NumberFormat.FormatNoLeadingZero` | Overview.py:23 | A formatted total starts with "0" only when it is "0", and it is "0" exactly for the total 0 |
| `NumberFormat.FormatRemoveDots` | gem.py:38 | Deleting the dots of a formatted total gives its plain decimal text |
| `NumberFormat.FormatRoundTrip` | Overview.py:23 | A formatted total holds only digits and dots and reads back to the total |
| `NumberFormat.RoundHalfEven` | gem.py:41 | `round` of the exact quotient gives an integer nearest to it, and the even one when two are equally near |
| `NumberFormat.HalfEvenRoundingUnique` | Overview.py:28 | There is only one half-even rounding of a quotient |
| `Kpi.KpiTotals` | gem.py:35-38 | The formatted applicant total and quota total are each grouped in threes with "." and have no leading zero; deleting the dots gives the plain decimal of the sum of the non-missing values of their column, and they read back to that sum |
| `Kpi.KpiRatio` | gem.py:39-41 | The ratio is the sentinel exactly when total applicants is 0; otherwise it is "1:" followed by the half-even rounding of quota*100/applicants, written as a plain decimal without leading zeros |
| `Kpi.RatioDetermined` | Overview.py:26-28 | Any half-even rounding q of quota*100/applicants is the number shown after "1:", and the ratio is exactly the text "1:" followed by the decimal of q, so it is fully determined by the two totals |
| `Kpi.HalfEvenExample` | Overview.py:20-29 | On two rows with 100+20 applicants and 10+5 quota, the KPI triple is ("120", "15", "1:12") |
| `Ranking.GroupTotalIsFilteredTotal` | gem.py:154 | A group's sum is the column total of the table filtered to that key |
| `Ranking.SortedKeys` | Overview.py:61 | The group-by's keys are strictly ascending and are exactly the distinct values of the key column |
| `Ranking.GroupBy` | gem.py:159 | One group per distinct key, in ascending key order; each group's total is the sum of its rows' non-missing values |
| `Ranking.InsertByTotal` | gem.py:160 | Ranked insertion adds exactly the one group to the list's contents |
| `Ranking.SortByTotal` | Overview.py:67 | The sort by total is a permutation of the groups |
| `Ranking.SortByTotalRanked` | Overview.py:62 | On groups in key order, the stable sort by descending total orders by total, then by key |
| `Ranking.NLargestSpec` | gem.py:155 | `nlargest(n)` keeps min(n, groups) groups of the input in ranked order; every group left out ranks below every group kept; with at most n groups it keeps all of them |
| `Ranking.TopTenSpec` | gem.py:154-165 | Each top-10 list has at most 10 entries (all groups if fewer), non-increasing totals with ties in key order, distinct keys from the table, and each total equal to its group's sum |
| `Ranking.TopTenSelectsLargest` | Overview.py:61-72 | A key left out of a top-10 list ranks below every listed group, so its total is no larger; with at most 10 groups every key is listed |
| `Ranking.GroupOfKey` | Overview.py:70-71 | Every key of the table has its group in the group-by, and in the top-10 list when there are at most 10 groups |
| `Ranking.GroupByConservesTotal` | gem.py:163 | The group totals add up to the column total: no value is lost or counted twice |
| `TitleCase.TitleSpec` | gem.py:106-107 | Title-casing keeps the length, upper-cases each letter that starts a word, lower-cases the other letters and keeps all other characters |
| `TitleCase.TitleKeepsLetters` | gem.py:107 | Title-casing only changes the case of letters |
| `TitleCase.TitleIdempotent` | gem.py:106 | Title-casing twice equals title-casing once |
| `TitleCase.NormaliseNamesSpec` | Overview.py:39-40 | Normalising keeps the row count and every other column, and title-cases the programme and university names |
| `TitleCase.NormaliseNamesIdempotent` | Overview.py:40 | Normalising a normalised table changes nothing |

## Left out

- Loading the spreadsheet (`pd.read_excel`, `pd.concat`) and fetching the geojson: file and network I/O. The model starts from a sequence of rows.
- Streamlit page set-up, sidebar, metric widgets and columns, and the `st.cache_data` memoisation: UI plumbing and framework caching.
- `DynamicFilters`: an external library whose code is not part of this model. Its cross-filter narrowing of the choices offered is not modelled. Its effect on the rows is taken to be the chained `filter_data` of `Filtering.FilterAll`.
- Altair and Plotly chart specifications, including the in-chart `transform_window` rank filter: declarative rendering done by foreign libraries.
- `display_sidebar` and `display_charts`: dead template code. They refer to columns this dataset lacks and are never called.
- The per-programme page (`1_📈By_Major.py`): beyond the loading (left out above), it reuses the normalisation and filtering modelled here. It then shows `filtered_df['nama_prodi'].iloc[0]` (1_📈By_Major.py:30), which fails when the filtered table is empty. That page-level display is not modelled.
- Floating point: the source divides in floats and formats `total / 1` as a float. The model uses exact integers and the exact rational quotient. These agree for totals below 2^53, and for quotients whose float rounding does not cross a half. Take quota 23 over applicants 40: in IEEE doubles, `(23 / 40) * 100` is 57.49999999999999, so the source shows "1:57". The exact quotient is 57.5, so the model's half-even rounding gives "1:58".
- `TitleCase.Title`: does not model Python's case rules beyond ASCII. Any non-ASCII character counts as a non-letter: it is kept as it is and starts a new word. Python would case non-ASCII letters and would treat them as part of a word.
- Missing keys: pandas drops `NaN` keys from a group-by, and `isin` never matches them. In the model every key cell holds a string.
- `tahun` is an integer in the spreadsheet; the model keeps it as its text, like every key.
- Negative counts, and `astype("Int64")` failing on fractional values, are not modelled: counts are natural numbers.
- The ranker sums the raw columns rather than their `Int64` casts. For whole-number cells both give the same sums.
- `Ranking.NLargest`: the tie order rests on how pandas implements `nlargest`, which is library code outside this model. With more than 10 groups pandas picks the candidates with a stable sort, so the earlier group in key order wins a tie. With at most 10 groups it returns `sort_values(ascending=False).head(n)` with the default quicksort, and numpy does not promise an order among equal totals. The model takes the stable order in both cases.
- `Ranking.NLargest`: takes a natural `n`. The source always passes 10, so a negative `n` does not arise.
