# Socioeconomic table transforms, modelled in Dafny

This project models the table transforms of three pandas scripts. Each one
cleans or reshapes a socioeconomic dataset. A data frame is modelled as a
`Table`: a sequence of column labels and a sequence of rows of optional cells
(`Value`: missing, integer, real or text). The modelled errors are the ones
pandas raises on these frames (`KeyError`, an attribute read before it is
set) and the case of a repeated label.

- **Poverty incidence reshape** (`poverty_incidence.dfy`). `reshape` turns
  the wide table into a long one. In the wide table each metric has one
  column per year, e.g. "Poverty Incidence (2018)". For each of 2018, 2021
  and 2023 in turn:
  - it selects `Region`, `Province` and the columns carrying `(YEAR)`;
  - it appends a `year` column;
  - it builds a rename dictionary in a loop, which strips " (YEAR)" from the
    names, and renames;
  - it stacks the three blocks with `pd.concat(..., ignore_index=True)`.

  The concatenation is an outer join of the labels in order of first
  appearance. `Reshape`, `BuildBlocks` and `BuildBlock` follow the loops step
  by step. Each is proved equal to the specification functions
  `ReshapeSpec`, `Blocks` and `Block`. Lemmas about those functions prove
  what the reshape promises:
  - 3 × n rows;
  - block k holds the input rows in order;
  - each output row carries its year, Region and Province;
  - each metric keeps its value under its stripped name;
  - the output labels are exactly the identifiers, `year` and the stripped
    names;
  - a label that a block lacks is missing in that block's rows.

  The `Processor` class holds `df` and `df_processed`. `ReshapeFrame`
  assigns only `df_processed`.
- **Food price preprocessor** (`food_prices_preprocessor.dfy`):
  - `identify_column_groups`: the fixed lists, the food columns and the six
    prefix groups, with disjointness and coverage.
  - `handle_missing_values` with the strategies 'analyze', 'drop' and
    'impute'. The per-market forward fill is a method over an `array` of
    rows with a dictionary of last-seen values. It is proved equal to the
    function `ForwardFilled`, which is proved idempotent and to take the
    nearest earlier present value of the same market.
  - The `quarter` and `year_month` features of `create_derived_features`.
    Year-month text is proved to parse back to its year and month.
  - The default output path of `save_processed_data`.
- **Food price processor** (`food_prices_processor.dfy`):
  - `identify_column_groups`, where each prefix group is split by the
    `_index` ending. Both halves together hold exactly the prefix group's
    columns, as a multiset.
  - The `save_csv` output path.
  - The three no-op stubs.

The modules `Text` (`startswith`, `in`, `replace(p, '')`, `str()`, `zfill`),
`Seqs` (list comprehension as `Filter`, subsequences, distinctness), `Tables`
(frames, `df[cols]`, column assignment), `Paths` (lexical pathlib parents and
file names) and `ColumnGroups` (the naming convention shared by both food
scripts) hold the pieces the three scripts share.

## Model

| member | source | states |
|---|---|---|
| `PovertyIncidence.YearColumns` | poverty-incidence-processor.py:33-37 | `year_columns` is an order-preserving subsequence of the labels, and a label is in it exactly when it contains `(2018)`, `(2021)` or `(2023)` |
| `PovertyIncidence.ColumnsForYear` | poverty-incidence-processor.py:46 | `year_cols` is the order-preserving subsequence of `year_columns` holding exactly those that contain the given year's token |
| `PovertyIncidence.StripYearUnchangedIff` | poverty-incidence-processor.py:55 | the rename leaves a name unchanged exactly when it lacks " (YEAR)", so "(YEAR)" with no space before it is kept |
| `PovertyIncidence.StripYearOfTagged` | poverty-incidence-processor.py:55 | any metric name that does not itself contain " (YEAR)", brackets included ("Poverty Incidence (%)"), tagged with " (YEAR)" is stripped back to exactly the metric name |
| `PovertyIncidence.RenameLabels` | poverty-incidence-processor.py:52-58 | renaming `id_columns + year_cols + ['year']` with the year's dictionary strips the year's columns and leaves Region, Province and `year` untouched |
| `PovertyIncidence.RenamedSelection` | poverty-incidence-processor.py:48-58 | selecting, adding `year` and renaming with the year's dictionary yields the year's block |
| `PovertyIncidence.BuildBlock` | poverty-incidence-processor.py:46-59 | one loop pass, including the inner loop that builds `rename_dict`, produces exactly `Block(df, year)` |
| `PovertyIncidence.BuildBlocks` | poverty-incidence-processor.py:44-59 | the loop over the years appends one block per year, in the order 2018, 2021, 2023 |
| `PovertyIncidence.BlocksAt` | poverty-incidence-processor.py:45-59 | the k-th appended block is the block of the k-th year |
| `PovertyIncidence.Reshape` | poverty-incidence-processor.py:33-61 | the reshape returns `ReshapeSpec(df)`: KeyError for a missing Region, then Province, an error for a repeated label in a block, otherwise the concatenated blocks |
| `PovertyIncidence.BlockColumnsMembers` | poverty-incidence-processor.py:46-58 | a label is in a year's block exactly when it is Region, Province, `year` or a column with that year's token stripped of " (YEAR)" |
| `PovertyIncidence.BlockIdentity` | poverty-incidence-processor.py:48-49 | every row of a block has `year` equal to the block's year and the Region and Province of its input row |
| `PovertyIncidence.BlockMetric` | poverty-incidence-processor.py:48-58 | a column carrying the year's token holds its input value under its stripped name |
| `PovertyIncidence.BlockLacks` | poverty-incidence-processor.py:48-58 | any other label reads as missing in the block |
| `PovertyIncidence.UnionColumns` | poverty-incidence-processor.py:61 | the concatenated labels have no repeats and are exactly the labels found in some block |
| `PovertyIncidence.UnionColumnsStartsWithFirst` | poverty-incidence-processor.py:61 | the concatenated labels begin with the first block's labels, in their order |
| `PovertyIncidence.ConcatRowAt` | poverty-incidence-processor.py:61 | with blocks of n rows each, row `k·n + i` of the concatenation reads, under every label, what row i of block k reads; labels the block lacks are missing |
| `PovertyIncidence.ReshapeShape` | poverty-incidence-processor.py:44-61 | the reshape fails exactly for a missing identifier or a repeated label; otherwise the result is well formed with 3 × n rows |
| `PovertyIncidence.ReshapeColumnOrder` | poverty-incidence-processor.py:61 | the output labels start with Region, Province, the stripped 2018 columns, `year` |
| `PovertyIncidence.ReshapeRow` | poverty-incidence-processor.py:45-61 | output row `k·n + i` is input row i as block k holds it |
| `PovertyIncidence.ReshapeBlockIdentity` | poverty-incidence-processor.py:38-49 | output row `k·n + i` has `year` equal to the k-th year and the Region and Province of input row i |
| `PovertyIncidence.ReshapeMetricValue` | poverty-incidence-processor.py:45-61 | a column tagged with the k-th year shows up under its stripped name, and row `k·n + i` holds input row i's value |
| `PovertyIncidence.ReshapeColumns` | poverty-incidence-processor.py:33-61 | the output labels are exactly Region, Province, `year` and the stripped names of tagged columns; any other input column is gone |
| `PovertyIncidence.ReshapeMissingInBlock` | poverty-incidence-processor.py:61 | a label that block k lacks is missing in all of block k's rows (outer join) |
| `PovertyIncidence.Processor.constructor` | poverty-incidence-processor.py:10-16 | after construction and loading, `df` is the loaded frame and `df_processed` is unset |
| `PovertyIncidence.Processor.ReshapeFrame` | poverty-incidence-processor.py:23-67 | `df` stays unchanged; `df_processed` becomes the long table, or stays as it was when the reshape raises |
| `PovertyIncidence.Processor.SaveCsv` | poverty-incidence-processor.py:92-96 | writes to `processed-data` / `stem_processed.suffix` under the parent of the input's directory (`input.parent.parent`), a sibling of that directory; fails on an unset `df_processed` |
| `Paths.InProcessedData` | poverty-incidence-processor.py:93-94 | the output path differs from the input, sits in a `processed-data` directory that has the same parent as the input's directory (`input.parent.parent`), and its stem is the input stem plus `_processed` |
| `Paths.InProcessedDataTwoLevels` | poverty-incidence-processor.py:94 | pins the level: `a/b/x.csv` goes to `a/processed-data/x_processed.csv` |
| `Paths.BesideInput` | food-prices-preprocessor.py:266-268 | the default output sits in the input's directory, differs from the input, and removing `_processed` from its stem gives back the input |
| `ColumnGroups.FoodCols` | food-prices-preprocessor.py:82-85 | `food_cols` is an order-preserving subsequence that holds exactly the columns with none of the six prefixes that are not geo, time or meta labels |
| `FoodPricesPreprocessor.IdentifyColumnGroups` | food-prices-preprocessor.py:66-96 | the fixed lists; the food columns; six keys original/high/low/current/inflation/trust, each holding the order-preserving subsequence of columns with its prefix |
| `FoodPricesPreprocessor.GroupsDisjoint` | food-prices-preprocessor.py:82-96 | the six derived groups are pairwise disjoint and disjoint from `food_cols` |
| `FoodPricesPreprocessor.GroupsCover` | food-prices-preprocessor.py:82-96 | every column is a food column, in a derived group, or one of the fixed geo/time/meta labels |
| `FoodPricesPreprocessor.FirstAbsent` | food-prices-preprocessor.py:137-139 | finds a required label missing from the frame exactly when there is one |
| `FoodPricesPreprocessor.DropIncomplete` | food-prices-preprocessor.py:137-140 | `dropna(subset=critical_cols)` raises KeyError exactly when a critical label is absent; otherwise it keeps an order-preserving subsequence of the rows and reports how many went |
| `FoodPricesPreprocessor.DropKeepsComplete` | food-prices-preprocessor.py:139 | a row with all five critical identifiers is kept as often as it occurs; any other row is removed |
| `FoodPricesPreprocessor.DroppedCount` | food-prices-preprocessor.py:138-140 | the reported count is the number of rows missing a critical identifier |
| `FoodPricesPreprocessor.ForwardFilled` | food-prices-preprocessor.py:144-146 | the fill keeps the shape, the `geo_id` cells, every non-numeric cell and every present cell of a row that has a `geo_id` |
| `FoodPricesPreprocessor.LastSeenNearest` | food-prices-preprocessor.py:146 | a filled value is the nearest earlier present value of the same column and `geo_id`; it stays missing exactly when the group has none before it |
| `FoodPricesPreprocessor.LastSeenAfterFill` | food-prices-preprocessor.py:146 | filling does not change the last value seen in any group |
| `FoodPricesPreprocessor.ForwardFillIdempotent` | food-prices-preprocessor.py:146 | forward-filling a filled frame changes nothing |
| `FoodPricesPreprocessor.ForwardFillRows` | food-prices-preprocessor.py:144-146 | the in-place row loop, with its dictionary of last-seen values per `geo_id`, leaves the array equal to `ForwardFilled` of its old contents |
| `FoodPricesPreprocessor.Analyze` | food-prices-preprocessor.py:124-133 | 'analyze' succeeds exactly when the groups exist and all geo, time and food labels are columns |
| `FoodPricesPreprocessor.Impute` | food-prices-preprocessor.py:142-146 | 'impute' fails exactly without `geo_id` or `DATES`; otherwise it forward-fills the rows under the same labels |
| `FoodPricesPreprocessor.Preprocessor.constructor` | food-prices-preprocessor.py:10-19 | after construction and loading, `df` is the loaded frame and no groups exist yet |
| `FoodPricesPreprocessor.Preprocessor.IdentifyColumnGroupsOfFrame` | food-prices-preprocessor.py:57-109 | stores the groups of the frame's labels and leaves the frame alone |
| `FoodPricesPreprocessor.Preprocessor.HandleMissingValues` | food-prices-preprocessor.py:111-149 | 'analyze' leaves `df` unchanged; 'drop' and 'impute' replace `df` by their result or leave it on error; any other strategy does nothing; labels are unchanged in every case |
| `FoodPricesPreprocessor.Quarter` | food-prices-preprocessor.py:245 | a missing month gives a missing quarter; otherwise month m lies in quarter q, i.e. 3q-2 ≤ m ≤ 3q |
| `FoodPricesPreprocessor.YearMonth` | food-prices-preprocessor.py:249 | the text starts with the year's text and '-', and with a month in 0..99 it is three characters longer |
| `FoodPricesPreprocessor.YearMonthRoundTrip` | food-prices-preprocessor.py:249 | the year-month text of a non-negative year and month parses back to that year and month |
| `Text.ZFillNat` | food-prices-preprocessor.py:249 | `str(n).zfill(w)` is all digits, ends with `str(n)` and still denotes n |
| `FoodPricesPreprocessor.DerivedFeaturesOfRow` | food-prices-preprocessor.py:244-249 | after the feature step, a row with month 1..12 has a quarter between 1 and 4 containing its month, and a `year_month` that reads back as its year and month |
| `FoodPricesPreprocessor.Preprocessor.CreateDerivedFeatures` | food-prices-preprocessor.py:244-254 | adds `quarter` and then `year_month`; a missing `month` fails with no change, a missing `year` fails after `quarter` was added, a missing `DATES` fails after both were added |
| `FoodPricesPreprocessor.Preprocessor.SaveProcessedData` | food-prices-preprocessor.py:259-273 | writes to the given path, or by default beside the input as `stem_processed.suffix` |
| `FoodPricesProcessor.IdentifyColumnGroups` | food-prices-processor.py:67-107 | the fixed lists; the food columns; six keys open/high/low/close/inflation/trust in both dictionaries; under each key, `derived_index_cols` holds the columns with that prefix ending in `_index`, and `derived_cols` the rest, each in order |
| `FoodPricesProcessor.IndexSplitPartitions` | food-prices-processor.py:90-107 | for each key the two lists together hold the prefix's columns exactly, as a multiset |
| `FoodPricesProcessor.GroupsDisjoint` | food-prices-processor.py:83-107 | lists under different keys share no column, no column is both `_index` and not, and none is a food column |
| `FoodPricesProcessor.GroupsCover` | food-prices-processor.py:83-107 | every column is a food column, in some derived list, or a fixed identifier |
| `FoodPricesProcessor.SaveCsvPath` | food-prices-processor.py:136-137 | the output directory is the parent of the input's directory (`input.parent.parent`) plus `processed-data`, the name is `stem_processed.suffix`, and it differs from the input |
| `FoodPricesProcessor.Processor.constructor` | food-prices-processor.py:10-20 | after construction and loading, `df` is the loaded frame and no groups exist yet |
| `FoodPricesProcessor.Processor.IdentifyColumnGroupsOfFrame` | food-prices-processor.py:58-124 | stores the groups of the frame's labels and leaves the frame alone |
| `FoodPricesProcessor.Processor.HandleMissingValues` | food-prices-processor.py:126-127 | the stub leaves frame and groups unchanged |
| `FoodPricesProcessor.Processor.ConvertDataTypes` | food-prices-processor.py:129-130 | the stub leaves frame and groups unchanged |
| `FoodPricesProcessor.Processor.DetectOutliers` | food-prices-processor.py:132-133 | the stub leaves frame and groups unchanged |
| `FoodPricesProcessor.Processor.SaveCsv` | food-prices-processor.py:135-142 | writes to `SaveCsvPath` of the input and leaves the frame unchanged |

## Left out

- Reading and writing CSV files (`read_csv`, `to_csv`): the frame read is a constructor argument, and a save returns the path it would write to.
- All console output: `explore_basic_info`, `explore_data`, the counts printed by `identify_column_groups` and 'analyze', memory usage, `describe()`.
- `detect_outliers` and `convert_data_types` of the preprocessor: they rest on floating-point quantiles, means and standard deviations, and on pandas' datetime and numeric parsing, which are not visible here.
- `days_since_start`: it depends on pandas datetime arithmetic.
- FoodPricesPreprocessor.Preprocessor.HandleMissingValues: the sort by (`geo_id`, `DATES`) before the 'impute' fill is not modelled. The rows are filled in the order given, which is the behaviour on a frame that is already sorted. Which numeric columns exist is a parameter (`numeric`), because dtypes are not modelled.
- FoodPricesPreprocessor.Preprocessor.CreateDerivedFeatures: `Ok(())` stands for lines 244-249 plus the presence of `DATES`. The `days_since_start` column of lines 253-254 is not added, and the failure there for any `DATES` column that is not of datetime dtype (a TypeError from the subtraction, or an AttributeError from `.dt`) is not modelled, because datetime dtypes are not modelled.
- FoodPricesPreprocessor.Preprocessor.CreateDerivedFeatures: `year` and `month` are required to hold integers or nothing (pandas' Int64 dtype), where a missing cell prints as "<NA>". A float column would print as "1.0" instead, and that path is not modelled. The dtype of `quarter` (float beside NaN) is not modelled either.
- PovertyIncidence.Reshape: a block with a repeated label is an error (`DuplicateLabels`). pandas can still concatenate such blocks when all three have the same labels. This case needs a column named like "A (2018) (2018)" or a tagged Region.
- PovertyIncidence.Reshape: for a frame missing both Region and Province, pandas lists both in one KeyError. The model names only Region.
- FoodPricesPreprocessor.Analyze: for absent food labels, `self.df[self.food_cols]` raises one KeyError that lists all of them. The model names the first absent one. An absent geo or time label fails on its own `self.df[col]`, as modelled.
- PovertyIncidence.Concat: the outer concatenation turns an integer column that some block lacks into float (1200 becomes 1200.0), because NaN needs a float column. The model keeps such cells as `Int`. Column dtypes are not modelled, so this change of representation is not captured.
- FoodPricesPreprocessor.DropIncomplete: the same holds for `dropna` with several critical labels absent. The model names the first absent one.
- Python dictionaries are modelled as sequences of (key, list) pairs in insertion order. The rename dictionary is a `map`, since only lookups are made in it.
- Paths are lexical: a directory is a list of parts, and `parent` drops the last part ("." and "/" are their own parents). How pathlib splits `stem` and `suffix` is not modelled; they are given strings.
- A grid completion or interpolation/extrapolation step for the poverty data is not part of this model: no such code exists in the three scripts, which end the poverty pipeline at `reshape` and `save_csv`.
