# Time summarizer of the calliope model (LISA)

`TimeSummarizer` in `lisa/time.py` coarsens the time axis of a solar/irradiance
dataset before the model is solved. A dataset is a dictionary of series keyed by name:

- `_t` is the master step index;
- `_dt` holds the datetimes;
- every other key is a per-site data frame with one row per step.

A fixed policy table, `known_data_types`, says how each known variable folds a window of
rows into one:

| key | method |
|---|---|
| `_t`, `_dt` | cut (keep the first row) |
| `dni`, `D` | sum |
| `n_el` | average |
| `n_sf` | average weighted by `dni` |

Variables outside the table are never touched.

There are three operations:

- **`reduce_resolution`** folds every window of `R` consecutive rows into one. Over the whole
  series it replaces each variable and writes a `time_res_series` that is `R` at every
  remaining step. Over a row range it writes each window's fold back at the window's first
  row.
- **`mask_where_zero_dni`** flags the steps where the `dni` summed over all sites is not
  positive.
- **`dynamic_timestepper`** scans that mask. It uses `argmax`/`argmin` to find each run of
  flagged steps and folds the run into one step with a ranged `reduce_resolution`. It marks
  the absorbed rows with 2, records the run's length in `time_res`, and finally keeps only
  the rows marked below 2.

The model is positional. A dataset is the record `Dataset.Data`:

- `_t` is a sequence;
- `_dt` is an optional sequence of opaque stamps;
- the variables are a map from name to `Frame`, a width plus a table of real rows;
- `time_res_series` is an optional sequence.

The modules are:

- `Spans`: row spans and tilings.
- `Tables`: column sums, window sums and means.
- `Reduce`: the four reduction methods, modelled on the rolling sum/mean they use.
- `Dataset`: the policy table and `reduce_resolution`.
- `Mask`: the DNI mask.
- `Runs`: the argmax/argmin run scan and the grouping it produces.
- `Timestepper`: `dynamic_timestepper`.

The central result is `Timestepper.DynamicTimestepper`. For every 0/1 mask it proves:

- the output keeps exactly the first row of every group of `Runs.Groups`;
- `time_res_series` holds the group lengths;
- every sum, average or cut variable holds its fold over each group.

The scan's loop is `Timestepper.ScanFrom`, a recursive function on the remaining rows.
`Timestepper.ScanSettles` is its invariant: from the current row on, the state is as it was
at the start, and every group behind it is folded and marked.

## Model

| member | source | states |
|---|---|---|
| `Dataset.WeightsAreKnown` | lisa/time.py:16-21 | The only weighted method in the policy table names a weights variable that is itself in the table and is not weighted, so weights never chain. |
| `Reduce.Range` | lisa/time.py:40-42 | Python's `range(lo, hi, step)`: its length is the number of steps that fit below `hi`, and entry i is `lo + i*step`. |
| `Reduce.IndexesAgree` | lisa/time.py:40-42 | When R divides the length, the new index and the rolling index have one entry per window, and each rolling label lies R-1 rows after the window's first label. Relabelling a trailing rolling result therefore moves each window's value to the window's first row. |
| `Reduce.RollingSumIsWindowSum` | lisa/time.py:142 | The sliding-window rolling sum (previous sum, plus the entering row, minus the leaving row) equals the direct sum of the R rows ending at that row. |
| `Reduce.RollingMeanRow` | lisa/time.py:135 | The rolling mean at a row is the mean of the R rows ending there, site by site. |
| `Reduce.ReduceSum` | lisa/time.py:140-145 | The output has N/R rows, and row i is the site-wise sum of input rows i*R .. i*R+R-1. |
| `Reduce.ReduceSumKeepsTotals` | lisa/time.py:140-145 | Sum reduction preserves each site's total over the whole series. |
| `Reduce.SumExample` | lisa/time.py:140-145 | [1,2,3,4] summed at R=2 gives [3,7]. |
| `Reduce.ReduceAverage` | lisa/time.py:133-138 | The output has N/R rows, and row i is the site-wise mean of input rows i*R .. i*R+R-1. |
| `Reduce.AverageExample` | lisa/time.py:133-138 | [1,2,3,4] averaged at R=2 gives [1.5,3.5]. |
| `Reduce.ReduceCut` | lisa/time.py:147-153 | The output has N/R entries, and entry i is input row i*R, the first row of each window (including the single-window branch). |
| `Reduce.CutOfContiguousIndex` | lisa/time.py:147-153 | Cutting a contiguous step index gives exactly the new index `range(start, start+N, R)`. |
| `Reduce.CutExample` | lisa/time.py:147-153 | [10,20,30,40] cut at R=2 gives [10,30]. |
| `Reduce.WeightedCell` | lisa/time.py:122-128 | If a window's total weight is zero the cell is 0. Otherwise the cell times the total weight is the weighted sum. |
| `Reduce.ReduceWeightedAverage` | lisa/time.py:119-131 | The output has N/R rows, and row i is the weighted mean of window i, with weights read at the same positions i*R+j of the weight table. |
| `Reduce.ZeroTotalWeightZeroSum` | lisa/time.py:125-128 | With non-negative weights the total is non-negative, and a zero total forces a zero weighted sum, so setting the cell to 0 is consistent. |
| `Reduce.UnitWeightsGiveAverage` | lisa/time.py:119-138 | With every weight 1, the weighted-average reduction equals the average reduction. |
| `Reduce.WeightedExample` | lisa/time.py:119-131 | Target [1,3] weighted by [1,3] at R=2 gives 2.5. |
| `Reduce.ZeroWeightExample` | lisa/time.py:127-128 | A window with all weights 0 gives 0, not an undefined value. |
| `Dataset.ReduceFrame` | lisa/time.py:44-63 | Applying a method to a whole frame keeps its width, divides its row count by R, and row i is the method's fold of window i. |
| `Dataset.ReduceVar` | lisa/time.py:44-63 | A variable outside the policy table is unchanged. A variable inside it has N/R rows, each the fold of its window under the variable's own method (weights taken from the named variable). |
| `Dataset.ReduceVarRange` | lisa/time.py:49-63 | Over rows from .. to-1, a policy variable keeps its length and every row outside the range. Row from+i*R holds the fold of window i of the slice. |
| `Dataset.ReduceWhole` | lisa/time.py:23-68 | Whole-series reduction: `_t`/`_dt` become their first row of every window (N/R entries), keys are unchanged, unknown variables are unchanged, each policy variable is folded window by window, and `time_res_series` is R at each of the N/R steps. |
| `Dataset.ReduceWholeWellFormed` | lisa/time.py:23-68 | After the whole-series reduction every policy variable (and its weights) is aligned with the reduced `_t`. |
| `Dataset.ReduceRange` | lisa/time.py:36-63 | Ranged reduction: `_t`, `_dt` and `time_res_series` are unchanged, keys are unchanged, rows outside the range are unchanged, and each window start inside the range holds that window's fold. |
| `Dataset.ReduceRangeWellFormed` | lisa/time.py:36-63 | After a ranged reduction every policy variable is still aligned with `_t`. |
| `Dataset.CutInPlace` | lisa/time.py:56-63 | Cutting a row range and writing the cut back at the window starts leaves the column exactly as it was. |
| `Dataset.ConstantTotal` | lisa/time.py:67-68 | A series that is R at every entry adds up to R times its length. |
| `Dataset.ReduceResolution` | lisa/time.py:23-68 | Both modes keep the dataset well formed, the keys, unknown variables and widths. With no range, the result has N/R steps and a `time_res_series` of N/R entries adding up to N. With a range, `_t`, `_dt` and `time_res_series` are untouched. |
| `Mask.MaskWhereZeroDni` | lisa/time.py:70-77 | The mask has one entry per `dni` row, `data` is the site sum of that row, and `summarize` is 1 exactly when that sum is <= 0, otherwise 0. |
| `Mask.NonNegativeSumZero` | lisa/time.py:73-76 | A sum of non-negative values is non-negative, and it is <= 0 exactly when every value is 0. |
| `Mask.FlagMeansDark` | lisa/time.py:70-77 | With non-negative irradiance, a step is flagged exactly when every site reads zero DNI. |
| `Runs.ArgMax` | lisa/time.py:95 | Returns the position of a largest value, and no earlier position holds one (first occurrence). |
| `Runs.ArgMin` | lisa/time.py:96 | Returns the position of a smallest value, and no earlier position holds one (first occurrence). |
| `Runs.NextRun` | lisa/time.py:95-102 | The run found from istart starts at or after istart and is non-empty. A run that is not the last ends before the end of the series. |
| `Runs.NextRunOnMask` | lisa/time.py:95-102 | On a 0/1 mask, the run starts at the first 1 from istart and ends at the first 0 after it, and it is last exactly when it reaches the end. With no 1 left, the run is the whole tail and is last. |
| `Runs.GroupsTile` | lisa/time.py:94-108 | The groups the scan produces cover every row from i to the end once, left to right, without gaps or empty groups. |
| `Runs.IntendedGroupsMaximal` | lisa/time.py:80-82 | As intended, every group is a maximal run of 1s or a single 0. |
| `Runs.IntendedNoFlagNoOp` | lisa/time.py:98-102 | As intended, a tail with no 1 is left as one-row groups. |
| `Runs.AsWrittenNoFlagCollapses` | lisa/time.py:95-102 | As written, a mask with no 1 is one group spanning every row. |
| `Runs.AllFlaggedOneGroup` | lisa/time.py:95-102 | A mask of all 1s is one group spanning every row. |
| `Runs.TrailingZerosFolded` | lisa/time.py:97-102 | Mask [1,0,0] groups as [0..1),[1..3) as written but as [0..1),[1..2),[2..3) as intended; [1..3) is not a maximal group. |
| `Dataset.Splice` | lisa/time.py:56-63 | The ranged write-back `data[k][s] = df`: output row i lands on row from+i*R, every row that is not a window start keeps its value, and the length is unchanged. |
| `Timestepper.Absorb` | lisa/time.py:106 | Marking a step's rows: exactly the rows from+1 .. to-1 leave the kept set (flag below 2), row from stays kept as the step's first row, and no other flag changes. |
| `Timestepper.Step` | lisa/time.py:103-107 | One scan step keeps the state aligned, `_t`, `_dt`, the keys, unknown variables and widths. |
| `Timestepper.ScanFrom` | lisa/time.py:92-108 | The whole scan keeps the state aligned, `_t`, `_dt`, the keys, unknown variables and widths. |
| `Timestepper.ScanSettles` | lisa/time.py:92-108 | Scanning from istart marks and folds every group from istart. The first row of each group keeps the group's fold, later rows are marked 2, and its `time_res` is the group's length. Nothing before istart changes. |
| `Timestepper.FilterColumns` | lisa/time.py:109-117 | After a scan that settled every group, the filter keeps `_t` and `_dt` at the first row of each group, the result is well formed, and `time_res_series` is the list of group lengths (line 117). |
| `Timestepper.FilterVars` | lisa/time.py:109-116 | After such a scan, the filter keeps the keys and leaves unknown variables untouched. Each policy variable gets one row per group, and for sum, average and cut that row is the fold of the original rows over the group. |
| `Timestepper.KeptGroups` | lisa/time.py:109-116 | Over marked groups that tile the rows, keeping the rows marked below 2 yields exactly the first row of every group. |
| `Timestepper.DynamicTimestepper` | lisa/time.py:79-117 | The result is well formed, and `_t` and `_dt` are the first rows of the groups. `time_res_series` is the group lengths. Keys and unknown variables are unchanged. Each policy variable has one row per group, and each sum/average/cut variable holds its fold over every group. |
| `Timestepper.TimestepperConserves` | lisa/time.py:90-117 | For any mask, the kept `time_res_series` adds up to the original number of steps. |
| `Timestepper.TimestepperAllFlagged` | lisa/time.py:94-117 | An all-1 mask leaves one step, the first, with `time_res_series` [N]. |
| `Timestepper.AsWrittenNoFlagFoldsAll` | lisa/time.py:95-102 | As written, an all-0 mask also leaves one step with `time_res_series` [N]. |
| `Timestepper.IntendedNoFlagUnchanged` | lisa/time.py:98-102 | As intended, an all-0 mask leaves the dataset unchanged except that `time_res_series` is 1 at every step. |
| `Timestepper.IntendedUnflaggedAlone` | lisa/time.py:80-82 | As intended, every unflagged row is a group of its own. |
| `Timestepper.IntendedKeepsUnflagged` | lisa/time.py:98-117 | As intended, every unflagged step survives the timestepper with `time_res` 1. |

## Left out

- Pandas labels and index alignment are not modelled; every series is positional. The model reads `argmax`/`argmin` as positions within the suffix, which is what the offset arithmetic of lines 95-96 needs. A label-returning `argmax` would break that arithmetic after the first run: it would count `istart` twice. The boolean filter at lines 113-115 is likewise taken positionally.
- Windows are whole: R must divide the row count (or the range length), and R >= 1. These preconditions exclude inputs on which the source raises; they do not stand in for a padded result. When R does not divide the length, `new_index` (line 40) has one more entry than `rolling_new_index` (lines 41-42), so the relabelling `df.index = self.new_index` fails with a length mismatch for the average (line 137) and the sum (line 144). The weighted average reads `target.iloc[i*R+j, :]` past the last row (lines 125-126). Only the cut would complete. R = 0 fails in `range(...)` at line 40.
- NaN and floating point are not modelled. Values are exact reals, and the rolling sum and mean are exact.
- Reduce.WeightedCell: a window whose total weight is 0 but whose weighted sum is not 0 gives inf in the source (only NaN is reset to 0). The model gives 0. The two agree whenever weights are non-negative (Reduce.ZeroTotalWeightZeroSum).
- Dataset.ReduceWhole: weights are read from the weights variable as it was before the call. In the source, the variables are visited in dictionary order. If `dni` is visited before `n_sf`, `dni` has already been replaced by its N/R reduced rows. Line 125 then reads `weight.iloc[i*R+j, :]` up to row N-1 and fails with an index error for every R >= 2. The model takes the order in which `n_sf` comes first, the only order in which the whole-series call completes for R >= 2.
- Dataset.ReduceRange: rows inside a range that are not window starts keep their old values. In pandas the aligned slice assignment may set them to NaN. They are dropped by the timestepper's final filter. Before that, though, a later step can read them as `n_sf` weights, because line 49 passes the whole `dni` and lines 125-127 read its rows from row 0. For example, with mask [1, 1, 0, 1, 1, 1] the second step (R = 3) reads `dni` row 1, which the first step absorbed. The `n_sf` values after the timestepper can therefore differ from the source's (a NaN weight there becomes 0), which is why Timestepper.DynamicTimestepper leaves them unstated.
- Dataset.ReduceVarRange: for the weighted average over a range, the weight rows read are those at positions i*R+j counted from row 0 of the whole weights variable, not from the range. The model keeps this as written.
- Timestepper.DynamicTimestepper: for the weighted-average variable (`n_sf`) only the width and row count are stated, not the values. Its weights come from whatever the earlier steps left in `dni`, including absorbed rows (see the two lines above).
- The in-place mutation of the dataset and of the mask frame is modelled as a function returning the new dataset. The mask's `time_res` column is part of the scan state.
- Reduce.ReduceCut: the single-window branch (line 150) is modelled as keeping the first entry. That is what it does for the one-dimensional `_t` and `_dt`, which are the only keys the policy table cuts. Applied to a multi-site frame, the source would build a series from the first row's values, and the model does not follow it there.
- `_dt` values are opaque stamps: they are only selected, never inspected.
- Error paths the source meets by raising are excluded by preconditions instead. An empty `_t` fails at `data['_t'][0]` (line 35), so Dataset.ReduceWhole and Dataset.ReduceResolution require at least one step. An empty mask fails in `argmax` (line 95), so Timestepper.DynamicTimestepper requires at least one row. `n_sf` present without `dni` fails at line 49, and Dataset.Governed requires the weights variable. A dataset without `dni` fails at line 72, and Mask.MaskWhereZeroDni requires it.
- The `methods` dispatch table (lines 11-14) is the `Dataset.Method` datatype, dispatched by the `match` in `Dataset.ReduceFrame`. `Dataset.FoldRow` is the reference fold of one span that the contracts use. The tuple-length test at line 47 is the `WeightedAverage` constructor carrying its weights name.

## Findings

| source | as written | input that shows it | evidently intended | confidence | as-written member | corrected member |
|---|---|---|---|---|---|---|
| lisa/time.py:95-102 | Once no 1 is left, `argmax` lands on the first remaining row and `argmin` on the same row. The "end" branch then stretches that step to the end of the series, folding all trailing unflagged rows into one step. | Mask [1, 0, 0] gives steps of lengths [1, 2] instead of [1, 1, 1]. A mask of all 0s folds the whole series into a single step with `time_res_series` [N]. | Contiguous 1s are compressed (docstring, lines 80-82), and unflagged rows are never merged (the TODO at lines 98-100 raises exactly this doubt). The scan should stop when no 1 remains, so an all-0 mask is a no-op. | medium; not executed | `Runs.TrailingZerosFolded`, `Timestepper.AsWrittenNoFlagFoldsAll` | `Runs.IntendedGroupsMaximal`, `Timestepper.IntendedNoFlagUnchanged`, `Timestepper.IntendedKeepsUnflagged` |

Both behaviours are one definition, selected by `Runs.Variant`. `AsWritten` follows the code; `Intended` adds the stop.

For a whole-series reduction, line 68 builds `time_res_series` on the already cut `_t`, so it has N/R entries, each R (Dataset.ReduceWhole).
