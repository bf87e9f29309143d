# Traffic dashboard core, modelled in Dafny

The dashboard loads a table of traffic measurements (a bundled CSV file or an
uploaded one). It adds a derived "Congestion Level" column by classifying each
row's "Average Speed (km/h)" against two fixed thresholds: 45 km/h and above is
"Low", 30 km/h up to 45 is "Medium", below 30 is "High". From the classified
table it shows three things:

- an overview page with a preview of the first 50 rows;
- an analysis page whose histogram and scatter plot draw at most 1500 rows,
  sampled without replacement with the fixed seed 42;
- a bar chart of how many rows carry each congestion label, counted over the
  whole table.

The project models that pipeline:

- `congestion.dfy` (module `Congestion`): the three levels, the thresholds, the
  classifier, the texts written into the column, and the congestion order
  Low < Medium < High.
- `frame.dfy` (module `Frame`): a row as loaded (`Record`) and as classified
  (`Row`). `Classify` is the pure description of the derived-column step.
  `DataFrame` is the loaded table as an object. Its method
  `AddCongestionLevel` fills a fresh label array row by row and attaches it to
  the table, as the column assignment does.
- `value_counts.dfy` (module `Frequencies`): pandas' `value_counts()` on a
  column. The values are tallied in order of first appearance, then sorted by
  count, highest first, by a stable insertion sort, so bars of equal height
  stay in the order their values first appear.
- `views.dfy` (module `Views`): the 50-row preview, the capped plot sample, the
  congestion counts and the analysis page that combines the last two.
- `seqs.dfy` (module `Seqs`): `Distinct`, `Min` and a set-size lemma used by the
  other modules.

Speeds are Dafny `real`s. The random generator behind `DataFrame.sample` is the
parameter `Sampler`: a function from (number of rows, rows wanted, seed) to the
row positions it draws. The plot sample requires only that, when the table has
more than 1500 rows, the generator's answer for seed 42 is 1500 distinct
in-range positions. The sample is a function of the table and the generator,
so two calls with the same table and seed give the same rows in the same order.

## Model

| member | source | states |
|---|---|---|
| `Congestion.GetCongestion` | app.py:59-65 | total over all speeds, negative ones included, with no error path; "Low" exactly when speed >= 45, "Medium" exactly when 30 <= speed < 45, "High" exactly when speed < 30 |
| `Congestion.Name` | app.py:61-65 | every level is written into the column as one of the three texts "Low", "Medium", "High" |
| `Congestion.NameInjective` | app.py:61-65 | two levels get the same text only if they are the same level, so counting texts counts levels |
| `Congestion.Boundaries` | app.py:60-65 | 45 km/h is "Low", 30 km/h is "Medium", 29.999 km/h and negative speeds are "High" |
| `Congestion.Monotone` | app.py:59-65 | a faster speed is never labelled more congested than a slower one (Low < Medium < High) |
| `Frame.Classify` | app.py:67 | the classified table has as many rows as the loaded one; row i keeps all its loaded columns and its label is the classifier applied to row i's speed |
| `Frame.ClassifySplit` | app.py:67 | rows are labelled independently: classifying two parts of a table and joining them gives the classified whole |
| `Frame.DataFrame.constructor` | app.py:49-54 | the loaded table holds the given rows and has no derived "Congestion Level" column yet |
| `Frame.DataFrame.AddCongestionLevel` | app.py:67 | the loaded columns are unchanged; a fresh column is attached (replacing any earlier one); the table read row by row is then exactly `Classify` of the loaded rows |
| `Frequencies.FirstSeen` | app.py:169 | the distinct values of a column: no value twice, every value of the column present, nothing else |
| `Frequencies.Insert` | app.py:169 | inserting a bar adds one element, keeps the others (as a multiset) and adds its count to the total |
| `Frequencies.SortByCount` | app.py:169 | the result is sorted by count, highest first, and is a permutation of the input with the same total |
| `Frequencies.FirstIndex` | app.py:169 | the first row holding a value: that row holds it and no earlier row does; the column's length exactly when no row holds it |
| `Frequencies.FirstIndexOneMoreRow` | app.py:169 | a row added at the end leaves the first row of a value already present where it was, and is the first row of a value new to the column |
| `Frequencies.FirstSeenInOrder` | app.py:169 | the distinct values are listed in the order of the rows where they first appear |
| `Frequencies.SortIsStable` | app.py:169 | the sort is stable: bars with equal counts keep their input order |
| `Frequencies.ValueCountsTiesInOrder` | app.py:169 | among bars of equal count, the value that appears first in the column comes first |
| `Frequencies.InsertKeepsDescending` | app.py:169 | inserting into a count-sorted sequence keeps it sorted |
| `Frequencies.SortKeepsDistinctValues` | app.py:169 | sorting never gives a value two bars |
| `Frequencies.TallyTotal` | app.py:169 | the tally counts every row of the column exactly once: its counts add up to the column's length |
| `Frequencies.ValueCountsBars` | app.py:169 | every bar of `value_counts()` is a value of the column and holds its number of occurrences, so it is positive |
| `Frequencies.ValueCountsCover` | app.py:169 | every value of the column has a bar |
| `Frequencies.ValueCounts` | app.py:169 | `value_counts()` of a column is sorted by count, highest first, gives no value two bars, and its counts add up to the column's length; `ValueCountsSpec` states its full result |
| `Frequencies.ValueCountsSpec` | app.py:169 | `value_counts()` is sorted by count, highest first, and among equal counts by first appearance in the column; it has one bar per distinct value and no other, each bar holding that value's number of rows, and the counts sum to the number of rows |
| `Views.Preview` | app.py:115 | `head(50)` has min(50, n) rows and is a prefix of the table, so the rows keep their original order |
| `Views.PickIsSubMultiset` | app.py:130 | rows drawn at distinct positions never include a row more often than the table holds it |
| `Views.PlotData` | app.py:129-132 | the plot sample has min(n, 1500) rows; a table of at most 1500 rows is used unchanged; a larger one gives the rows at the 1500 distinct positions drawn with seed 42, and no row more often than the table holds it |
| `Views.CongestionCounts` | app.py:169 | the congestion counts of the full table are sorted by count, highest first, have distinct keys, each one of "Low", "Medium", "High", and add up to the number of rows; `CongestionCountsSpec` states the full result |
| `Views.NamesCountRows` | app.py:169 | the occurrences of a level's text in the column equal the number of rows carrying that level |
| `Views.CongestionLabels` | app.py:169 | every key of the congestion counts is "Low", "Medium" or "High" |
| `Views.CongestionBarsAtMostThree` | app.py:169 | the congestion counts have at most three bars |
| `Views.CongestionBarOf` | app.py:169 | a level has a bar exactly when some row carries it, and that bar holds the number of such rows |
| `Views.RowsPerLevelSum` | app.py:59-67 | every row carries exactly one level, so the rows per level add up to the number of rows |
| `Views.CongestionCountsSpec` | app.py:169 | the congestion counts over the full table: sorted by count, highest first, and among equal counts in the order of the first row carrying each label; distinct keys drawn from the three labels; positive counts equal to the rows per level; summing to the number of rows |
| `Views.Analysis` | app.py:129-172 | the analysis page's charts draw the plot sample of min(n, 1500) rows, while its congestion bars are the congestion counts of the full table and sum to n |
| `Views.OneRowPerLevel` | app.py:169 | a table with exactly one row per level charts three bars, one per label, each of height one |
| `Views.OneRowPerLevelInOrder` | app.py:169 | a table with exactly one row per level has three rows, and its bars are those rows' labels in row order, each of height one |
| `Views.ThreeRowExample` | app.py:59-67 | rows at 50, 35 and 20 km/h are labelled "Low", "Medium", "High", and the chart's bars are exactly ("Low", 1), ("Medium", 1), ("High", 1), in that order |

## Left out

- Page configuration, CSS, sidebar widgets, the page selector and the static text (app.py:8-40, 72-112, 181-196) are presentation only.
- Reading the CSV file with `pd.read_csv` and the `@st.cache_data` memoisation (app.py:45-47) are file I/O and a library cache. The rows a load returns are given to the `DataFrame` constructor.
- The choice between the uploaded file and the bundled file (app.py:49-54) only picks the input, which is the constructor's argument.
- `data.describe()` (app.py:118) computes floating-point statistics inside pandas and is not modelled.
- The histogram, scatter and bar rendering with matplotlib (app.py:139-176) is not modelled. Its inputs, the plot sample and the congestion counts, are.
- The generator pandas uses for `sample(1500, random_state=42)` is the `Sampler` parameter.
- PlotData: does not state that the 1500 rows are drawn uniformly at random. It states only what any draw without replacement gives.
- NaN speeds are not representable as `real`. In the source both comparisons at app.py:60 and app.py:62 are false for NaN, so a NaN speed is labelled "High".
- Speeds are exact reals rather than floating-point values. This matters only for NaN and ±infinity, since comparing a float with 45 or 30 is exact; an infinity falls on the same side of the thresholds as any very large or very small real, so +infinity is "Low" and -infinity is "High".
- A table without an "Average Speed (km/h)" column makes pandas raise `KeyError` at app.py:67. This foreign-library failure is not modelled: every `Record` has a speed.
- pandas keeps each row's original index label in `head` and `sample`. The model keeps the rows and their positions only.
- Bars with equal counts are ordered by the first row holding their value. The source calls `value_counts()` with its defaults and relies on whatever order pandas gives; the model fixes first appearance: the tally lists values in first-seen order and the sort is stable, as `ValueCountsTiesInOrder` proves.
- A speed column holding text that is not a number is not modelled. pandas then reads the column as strings, and the comparison at app.py:60 raises `TypeError` while the classifier is applied at app.py:67. `Record.speed` is a `real`, so this case cannot arise in the model.
- A CSV file that already has a "Congestion Level" column is not modelled. The source overwrites that column at app.py:67. The model keeps such a column among a row's `others` and adds the derived column beside it, so for such a file the constructor's "no derived column yet" and `AddCongestionLevel`'s "loaded columns unchanged" describe a table with two such columns rather than one.
