# E-commerce dashboard: dataset preparation model

A Dafny model of the data pipeline behind the e-commerce statistics dashboard
(`Dashboard/app.py`). The script loads a product CSV, repairs the
`Qtd_Vendidos` (quantity sold) column, drops incomplete rows and derives the
inputs of its charts. The model covers:

- the bucket-token repair and the integer cast of `Qtd_Vendidos`;
- `dropna`;
- the top-10 brand counts;
- the two outlier filters;
- the collapse of minor genders into `'Outros'`;
- the min-max normalisation used by the regression view.

Modules follow the pipeline:

- `Wrappers`: `Option` stands for a missing (NaN) cell. `Result` stands for an operation that raises.
- `Seqs`: an order-preserving `Filter` with its subsequence, multiplicity, membership and idempotence laws.
- `NumericText`: integer text (optional sign, then decimal digits), its parser, and a canonical printer whose output the parser reads back (the converse fails: "+7" prints back as "7").
- `Table`: raw rows, the quantity decoder, the column-wide repair, `dropna` and the prepared product table.
- `Counts`: `value_counts` as a sequence of (label, count) pairs, its ascending sort, and `s[label] = v`.
- `Ranking`: selection of the `n` largest entries of a tally.
- `MinMax`: min-max normalisation over `real`, with its inverse.
- `Charts`: the views the charts consume.

Counts and normalisation use exact arithmetic:

- the 0.014 share test is `count * 1000 > 14 * total`;
- normalisation is computed over `real`.

The source sorts with an unstable sort, so the order of tied counts is not fixed. The model sorts with insertion sort, but no contract depends on how ties are ordered.

Behaviour of the code worth knowing, which the model keeps:

- Chart 2 is titled "most sold", but `value_counts` counts rows per brand. It does not sum `Qtd_Vendidos`.
- When counts tie at the cut, `nlargest(10)` keeps whichever of the tied entries it meets first.
- `astype(int)` accepts any integer text, negative numbers included, so a prepared quantity is only known to lie in the int64 range.
- `dropna` at line 42 inspects every column of the file, including those no chart reads. `RawRow.others` carries those columns.
- `s['Outros'] = ...` at line 99 overwrites a kept category that is already named 'Outros' rather than adding a second slice.

## Model

| member | source | states |
|---|---|---|
| Table.DecodeCell | Dashboard/app.py:28-39 | A decoded quantity fits the int64 column. It comes only from a present cell holding a bucket token or integer text. A missing cell is an error, never a value. |
| Table.BucketTokensDecode | Dashboard/app.py:28-36 | Each of the seven tokens decodes to exactly its integer: '+10mil' to 10000, '+50mil' to 50000, '+1000' to 1000, '+100' to 100, '+50' to 50, '+5' to 5, '+25' to 25. |
| Table.DecodeIntegerText | Dashboard/app.py:38-39 | Integer text round-trips: the decimal text of any int64 value decodes back to that value. |
| Table.UnknownTextRejected | Dashboard/app.py:38-39 | Text that is neither a token nor integer text is an error, never 0 and never any number. |
| NumericText.ParseShowRoundTrip | Dashboard/app.py:39 | Parsing the printed form of any integer gives back that integer, and the printed form is valid integer text. |
| NumericText.ParseInt | Dashboard/app.py:39 | The parser succeeds exactly on optionally signed, non-empty digit strings. |
| NumericText.ParsePlusSign | Dashboard/app.py:39 | A leading '+' does not change the value: "+42" reads as 42. |
| NumericText.ParseLeadingZero | Dashboard/app.py:39 | Leading zeros do not change the value: "007" reads as 7. With the round trip and the two sign lemmas this fixes the value of every integer text. |
| NumericText.ParseMinusSign | Dashboard/app.py:39 | A leading '-' negates the unsigned value, so "-0" reads as 0. |
| Table.DecodeOverflow | Dashboard/app.py:39 | Integer text outside the int64 range is an overflow error naming the value. |
| Table.RepairQuantities | Dashboard/app.py:38-39 | The cast succeeds iff every row's cell decodes. On success every row keeps its place with its decoded quantity. On failure it names the first failing row and that row's cause. |
| Table.DropIncompleteLaws | Dashboard/app.py:42 | `dropna` returns exactly the rows with no missing cell: in order, each as often as in the input. A second pass changes nothing. |
| Table.Prepare | Dashboard/app.py:28-42 | Preparation succeeds iff every quantity cell decodes. It never adds rows, and every quantity is in int64 range. |
| Table.PrepareRows | Dashboard/app.py:38-42 | The prepared table holds exactly the raw rows with no missing cell, each with its decoded quantity. |
| Table.PrepareOrder | Dashboard/app.py:38-42 | The j-th product is the j-th raw row with no missing cell, with its decoded quantity. Order and multiplicity are kept, since `Seqs.Positions` lists exactly those rows' indices, increasing. |
| Seqs.PositionsIncreasing | Dashboard/app.py:42 | Accepted indices are listed in strictly increasing order, each once. |
| Seqs.PositionsComplete | Dashboard/app.py:42 | Every accepted index is listed, so no complete row is lost. |
| Seqs.FilterAtPositions | Dashboard/app.py:42 | The j-th kept element is the element at the j-th accepted index. |
| Table.MissingQuantityIsFatal | Dashboard/app.py:39-42 | The cast runs before `dropna`, so a row missing its quantity aborts preparation rather than being dropped. |
| Table.PrepareScenario | Dashboard/app.py:28-42 | Worked case: '+100' and '50' become 100 and 50, and both complete rows survive. |
| Counts.ValueCountsEntries | Dashboard/app.py:64 | `value_counts` has one entry per label that occurs, carrying that label's exact row count, and no other entries. |
| Counts.ValueCountsTotal | Dashboard/app.py:94-95 | The counts of `value_counts` add up to the number of rows. |
| Counts.SortPermutation | Dashboard/app.py:64 | The ascending sort is a permutation of the tally. |
| Ranking.LargestSelection | Dashboard/app.py:64 | `nlargest(n)` keeps n entries or all of them. No entry left out exceeds an entry kept. |
| Charts.TopBrands | Dashboard/app.py:64 | The brand chart has at most ten bars, in ascending order of count. |
| Charts.TopBrandsEntries | Dashboard/app.py:64 | Each bar is a distinct brand of the table, carrying the exact number of rows with that brand. |
| Charts.TopBrandsSelection | Dashboard/app.py:64 | Fewer than ten bars means every brand is shown. A brand not shown never has more rows than any brand shown. |
| Charts.ScatterRows | Dashboard/app.py:77 | Every scatter row has quantity < 50000 and price < 1000. |
| Charts.ScatterRowsLaws | Dashboard/app.py:77 | The scatter rows are a subsequence of the table. A row is kept iff it is in range, with its full multiplicity, so no in-range row is dropped. |
| Charts.RegressionRowsLaws | Dashboard/app.py:114 | The regression rows are the subsequence of rows with quantity < 50000. A row is kept iff it is below the cap, and none is dropped. |
| Charts.KeptEntries | Dashboard/app.py:94-97 | The kept tally holds exactly the categories whose share of the rows is strictly above 0.014, each with its count. |
| Charts.CollapseMinor | Dashboard/app.py:94-100 | The pie's slices are sorted ascending by count. |
| Charts.CollapseMinorCategories | Dashboard/app.py:94-100 | A category other than 'Outros' has a slice iff its share is strictly above 0.014. Its slice is its exact count, and labels are unique. |
| Charts.CollapseMinorResidual | Dashboard/app.py:98-99 | 'Outros' is always present and equals the row total minus the kept sum. |
| Charts.CollapseMinorTotal | Dashboard/app.py:94-100 | The slices sum to the row total, minus the rows of a passing category already named 'Outros', whose count the assignment overwrites. |
| Charts.CollapseMinorPreservesTotal | Dashboard/app.py:94-100 | When no category is named 'Outros', the slices sum to the row total. |
| Charts.CollapseMinorAllMinor | Dashboard/app.py:97-100 | When no category passes the threshold, the pie is 'Outros' alone with every row. |
| Charts.CollapseMinorOverwriteExample | Dashboard/app.py:99 | Worked case: rows 'Outros' and 'Feminino' give slices summing to 1, not 2. |
| Charts.WithResidualScenario | Dashboard/app.py:94-100 | Worked case on a tally of 100 rows: A:1 and B:1 fall below 1.4% and become 'Outros' with 2; C:98 is kept; output is ascending. |
| Charts.WithResidualSum | Dashboard/app.py:98-100 | Overwriting or adding 'Outros', then sorting, makes the total equal to the kept sum plus the residual, minus any overwritten count. |
| Charts.GenderPieSlices | Dashboard/app.py:94-100 | On the prepared table, a gender other than 'Outros' has a slice iff more than 1.4% of products carry it. The slice is its exact product count, and 'Outros' holds the rest. |
| MinMax.Normalize | Dashboard/app.py:115-118 | Normalisation fails iff the column is non-empty and constant. Otherwise it keeps the length and every value lies in [0, 1]. |
| MinMax.NormalizeEnds | Dashboard/app.py:115-118 | The column minimum maps to 0 and the maximum maps to 1. |
| MinMax.NormalizeInverse | Dashboard/app.py:115-118 | Every normalised value maps back to its input through the column's range. |
| MinMax.NormalizeMonotone | Dashboard/app.py:115-118 | Normalisation preserves and reflects order. |
| MinMax.ScaleMonotone | Dashboard/app.py:115-116 | For a fixed range, a <= b iff scale(a) <= scale(b). |
| Charts.RegressionPoints | Dashboard/app.py:114-118 | One point per regression row, with both coordinates in [0, 1]. |
| Charts.RegressionPointsLaws | Dashboard/app.py:114-118 | The points fail iff there are rows and one column is constant. Otherwise each point maps back to its row's rating and quantity. |

## Left out

- CSV loading and the missing-file exit (Dashboard/app.py:14-24): file I/O. The model starts from the loaded rows.
- Figure construction (histograms, KDE, scatter rendering, OLS trendline, heatmap, `mpl_to_plotly`): rendering and library numerics.
- The correlation matrix (Dashboard/app.py:84-85): a floating-point computation done entirely inside pandas.
- Colour-map scaling and the RGBA strings (Dashboard/app.py:65-66, 102-104): presentation only.
- The Dash layout and server: UI plumbing.
- IEEE floating point: the share test and the normalisation use exact integer and `real` arithmetic, so rounding at the 0.014 boundary is not modelled.
- The ascending sort before the share filter (Dashboard/app.py:94): it affects only the order of tied entries, which no contract depends on.
- Table.DecodeCell: Python's `int()` also accepts surrounding whitespace and digit-group underscores. The model accepts only an optional sign followed by ASCII digits.
- Table.DecodeCell: a cell that pandas already loaded as a number is modelled by its decimal text.
- MinMax.Normalize: a constant non-empty column gives a NaN column in the source. The model reports it as an error, `DegenerateRange`.
- Charts.TopBrands: which of several equally counted brands survives the cut at ten is not fixed by the source. The contracts hold for every choice.
