# Agriculture trade dashboard: the table pipeline

This project models the table transformations of `dashboard_exports.py`, a
Streamlit dashboard. The dashboard compares the agricultural exports of
India and Türkiye: export quantity, export value and the unit price derived
from them, by product, partner and year. Tables are sequences of rows and
every transformation is a pure function. Values and prices are exact reals.

- `trade.dfy` (module `Trade`): the export table row and the Export
  Analysis filter. The filter keeps one product, the selected reporters and
  an inclusive year range.
- `top_partners.dfy` (module `TopPartners`): the live top-five partners
  table. Value is summed per (Product, Reporter, Partner), the rows are
  sorted by Product and Reporter ascending and Value descending, and the
  first five rows of each (Product, Reporter) group are kept. The sum runs
  over every Measure and Year, so quantities and values are added together.
  The model keeps this, as the code does it. This table is never shown:
  line 127 replaces `top_5_partners_each` with the contents of
  `top_5_partners.csv` before its only read at line 130, so the Top Trading
  Partners page charts the file (`Pages.ChartedPartners`), not
  `TopPartners.TopPartners`.
- `unit_price.dfy` (module `UnitPrice`): the unit-price series. It does the
  inner join of quantity rows with value rows, the ratio value / quantity,
  the bound `0 < price < 10000`, and the mean per (Year, Reporter).
- `pivot.dfy` (module `Pivot`): the Year × Reporter table of summed Value.
  A cell with no rows is absent, not zero.
- `comparison.dfy` (module `Comparison`): the Comparison Table page's
  country filter. An empty selection shows only the warning.
- `pages.dfy` (module `Pages`): the five-way page selector and what each
  page body computes. The page tests form two separate `if` chains, the
  second starting at line 121. The model proves that any option runs exactly
  one body.
- `tables.dfy` (module `Tables`), `sorting.dfy` (module `Sorting`) and
  `order.dfy` (module `Order`) hold shared pieces. These are boolean-mask
  selection, group keys, per-group sums, counts and means, a stable
  insertion sort, and Python's code-point order on strings.
- `unit_price_examples.dfy` (module `UnitPriceExamples`): worked instances
  of the unit-price pipeline.

The model follows the code. The top-partners groups come out in Product,
Reporter order, as `sort_values` puts them, not in order of first
appearance. On a tie in Value within a group, the partners stay in
Partner order. This is because `sort_values` on several columns is a
stable sort, and its input comes from `groupby`, which sorts its keys. So
when the 5th and 6th partners tie, `head(5)` keeps the one whose name sorts
first. The model's sort key therefore ends with Partner ascending.

## Model

| member | source | states |
|---|---|---|
| `Trade.ApplyFilter` | dashboard_exports.py:57-61 | a row is kept iff its Product is the selected one, its Reporter is selected and `from <= Year <= to` (both ends included); each kept row keeps its multiplicity; the result is a subsequence of the table (order kept) |
| `Trade.NoCountriesNoRows` | dashboard_exports.py:57-61 | an empty country selection gives the empty table |
| `Trade.MeasureRows` | dashboard_exports.py:85-86 | the quantity (or value) subset is exactly the rows of that Measure, with their multiplicities, in order |
| `TopPartners.Totals` | dashboard_exports.py:14 | one row per distinct (Product, Reporter, Partner) present in the table and none for an absent one; no triple twice; each row's value is the sum of Value over all rows with that triple, across Measures and Years |
| `TopPartners.TotalsAddUp` | dashboard_exports.py:14 | the grouped totals add up to the sum of Value over the whole table: no row is lost or counted twice |
| `TopPartners.TotalBeforePreorder` | dashboard_exports.py:14-15 | the sort key (Product asc, Reporter asc, Value desc, then Partner asc, the order groupby leaves the stable sort to keep) is a total preorder, so the sort is well defined |
| `TopPartners.HeadGroupSize` | dashboard_exports.py:16 | `head(n)` keeps `min(n, group size)` rows of every group |
| `TopPartners.HeadSorted` | dashboard_exports.py:15-16 | taking the first rows of each group keeps an ordered table ordered |
| `TopPartners.KeptNotSmaller` | dashboard_exports.py:15-16 | in the sorted table, no kept row of a group has a smaller Value than a dropped row of the same group, and on equal Value its Partner sorts no later |
| `TopPartners.TotalsGroupSize` | dashboard_exports.py:14 | after grouping, a (Product, Reporter) group has exactly as many rows as it has distinct partners |
| `TopPartners.TopPartners` | dashboard_exports.py:14-16 | the result is ordered by Product, Reporter ascending, Value descending and Partner ascending; every row is a grouped total and no (Product, Reporter, Partner) comes twice; each group has `min(5, distinct partners)` rows; no kept partner's total is below a dropped partner's total in the same group, and on a tie the kept partner sorts first |
| `UnitPrice.Join` | dashboard_exports.py:88-94 | every joined row pairs a quantity row and a value row that agree on Reporter, Partner, Product and Year; an empty side gives an empty join |
| `UnitPrice.JoinCount` | dashboard_exports.py:88-94 | a pairing (a, b) occurs (occurrences of a) × (occurrences of b) times when their keys agree and never otherwise: every matching pair exactly once, unmatched rows absent |
| `UnitPrice.Survivors` | dashboard_exports.py:96-97 | every surviving row has a nonzero quantity, price = value / quantity and `0 < price < 10000`; a joined row survives (with its multiplicity) iff its ratio exists and is in bounds |
| `UnitPrice.AveragePrices` | dashboard_exports.py:99 | one row per (Year, Reporter) with at least one surviving price, none for others, strictly ascending by (Year, Reporter); each row holds its group's mean, which lies between the group's smallest and largest price |
| `UnitPrice.AveragePriceTable` | dashboard_exports.py:85-99 | every mean is in `(0, 10000)`; an empty quantity or value subset gives an empty series |
| `UnitPriceExamples.Example` | dashboard_exports.py:85-99 | India / Wheat / 2020 with quantity 100 and value 500 gives the single row (2020, India, 5.0) |
| `UnitPriceExamples.OutlierDropped` | dashboard_exports.py:97 | a pair with ratio 20000 is dropped and no mean is produced |
| `UnitPriceExamples.ZeroQuantityDropped` | dashboard_exports.py:96-97 | a zero quantity never yields a price |
| `Tables.GroupSumsAddUp` | dashboard_exports.py:14 | group sums over the distinct keys add up to the table's total |
| `Tables.MeanBetweenExtremes` | dashboard_exports.py:99 | the mean of a non-empty group is at least one member's value and at most another's |
| `Sorting.SortSorted` | dashboard_exports.py:15 | sorting by a total preorder yields an ordered sequence (and `Sort` is a permutation) |
| `Pivot.PivotOf` | dashboard_exports.py:110 | index and columns are exactly the Years and Reporters present; cell (Year, Reporter) holds a value iff some row has that pair, and then it is the sum of their Values; otherwise it is empty, not 0 |
| `Pivot.PivotAddsUp` | dashboard_exports.py:110 | the filled cells add up to the total Value of the filtered table |
| `Comparison.CompareCountries` | dashboard_exports.py:166-170 | an empty selection gives the warning "Please select at least one country." and no table; a non-empty one gives exactly the rows whose Country is selected, with multiplicities, in table order |
| `Pages.LabelsDistinct` | dashboard_exports.py:25-31 | the five navigation labels are pairwise distinct |
| `Pages.SelectedPageRunsAlone` | dashboard_exports.py:34-188 | for every option, the two `if` chains together run exactly that page's body |
| `Pages.UnknownSelectionRunsNothing` | dashboard_exports.py:34-188 | a value that is not an option runs no page body |
| `Pages.ChartedPartners` | dashboard_exports.py:130 | the charted rows are exactly the loaded top-partner rows whose Reporter is India or Türkiye, each as often as the file holds it, in file order |
| `Pages.ExportAnalysisConsistent` | dashboard_exports.py:57-110 | the quantity and value series hold only selected rows of their Measure; with no country selected, the filtered table, the price series and the pivot are all empty |

## Left out

- File loading (lines 10, 12-13, 17, 127) is not modelled. The loaded tables are parameters (`Pages.Context`), and the precomputed `top_5_partners.csv` shown on the Top Trading Partners page is an input whose contents are unknown.
- The widget option lists (lines 20-22) and the widgets themselves (lines 7, 25, 53-55, 147, 164, 168) are not modelled. Their values are parameters (`Pages.Inputs`).
- Charts (lines 63-81, 101-107, 132-158), Markdown pages (lines 35-46, 189-204) and titles are left out: they are rendering through libraries outside the model.
- CSV and Excel downloads (lines 114-119, 172-182) are left out: they are library encoders. The Excel download exports the unfiltered comparison table.
- Number formatting `"{:,.0f}"` (line 111) is left out: it is display only.
- Floating point is not modelled: values are exact reals. The inf/NaN that pandas produces for a zero quantity is modelled as "no price", which fails the bounds just as inf and NaN do. Rounding is not modelled.
- NaN cells in the input tables are not modelled. pandas' special handling of missing keys and values in `groupby`, `merge` and `pivot_table` is therefore not modelled either.
- UnitPrice.JoinCount: the row order of the merge result is not stated, only which pairs occur and how often. No later step depends on that order.
- Pivot.PivotOf: the index and columns are sets, so their sorted order in pandas is not modelled.
