# LibBrain harmonisation core, modelled in Dafny

This project models the part of LibBrain that prepares multi-site brain
data for harmonisation, and proves properties of the model.

- **Table building** (`Utils/dataframe_builder.py`, module `DataframeBuilder`).
  Per-entity observables, scalars or vectors indexed by parcel, become a long
  table. Long tables of many entities are concatenated. One observable of a
  long table is pivoted to wide format (`long_to_wide`), and a wide table is
  flattened back to long records (`wide_to_long`). Module `WideLongRoundTrip`
  proves the round trip between the two formats.
- **The pre-harmonisation validator** (`Utils/harmonization_sanity_check.py`,
  module `SanityCheck`). Ten checks run in order, and the first one that
  fails decides the error.
- **The harmoniser** (`Utils/harmonize.py`, module `Harmonize`).
  1. Sites with a single row are dropped, then incomplete rows. As written,
     the single-row sites are counted on `site_col` but looked up in the
     literal column `site` (see "## Findings"). `HarmonizeDataset` models
     that code, and `HarmonizeDatasetIntended` models the evident intent.
  2. A feature matrix and a covariate table go to a site-effect estimator.
  3. The estimator's output is written back into a copy of the table. This
     is per feature at `region` level, and one correction factor per row at
     `global` level.

  The estimator (ComBat from `neuroHarmonize`) is a function parameter of
  type `Adjuster`.
- **Labels** feeding the pipeline.
  - Resting-state-network names read from Yeo labels, and the positions of
    each network in a parcellation (`RSN/RSN_transfer.py`, module
    `RsnTransfer`).
  - The ADNI-B loader's subject classification, subject discarding and the
    amyloid-based relabelling of `ADNI_B_Alt` (`DataLoaders/ADNI_B.py`,
    module `AdniB`).

Module `Frames` holds the shared table model:
- a table is an ordered list of column labels and an ordered list of rows;
- a row is a map from label to cell;
- a cell is `Null`, `Int`, `Real` or `Text`, and a label the row lacks reads
  as `Null`.

Every Python exception the core raises becomes the `Err` branch of a
`Result`, with a constructor naming the failed check.

The code is followed wherever its comments or docstrings say more:
- `harmonize_dataset`'s `region` level is per-feature adjustment. It is not
  an aggregation to regions.
- The validator raises on a site with too few subjects. The harmoniser
  silently drops a site with exactly one row.
- The `wide_to_long` docstring speaks of `<observable>_<index>` column
  names. The code uses every non-entity, non-metadata column label as the
  index value, and the model does the same.

## Model

| member | source | states |
|---|---|---|
| Frames.FirstMissing | Utils/harmonize.py:81-83 | None exactly when every wanted column is present; otherwise the first wanted column that is absent, every earlier one being present |
| DataframeBuilder.AsDictIter | Utils/dataframe_builder.py:24-28 | a flat dict yields one `(None, dict)` pair; a nested dict yields its `(key, inner dict)` pairs in order |
| DataframeBuilder.MakeRow | Utils/dataframe_builder.py:60-76 | a long row has exactly the keys id, observable, the index name, value and RSN, holding the entity id, observable name, index, value and network |
| DataframeBuilder.ScalarObservableRow | Utils/dataframe_builder.py:59-66 | a scalar observable gives one row, with a null index and the scalar as value |
| DataframeBuilder.VectorObservableRows | Utils/dataframe_builder.py:67-76 | a vector of length k gives k rows; row i has index i and value v[i] |
| DataframeBuilder.SingleRowsCount | Utils/dataframe_builder.py:56-77 | one dict gives one row per scalar plus one per vector element |
| DataframeBuilder.LongRowsCount | Utils/dataframe_builder.py:79-91 | the flattened rows of all dicts number the sum of the per-dict counts |
| DataframeBuilder.LongRowsAppend | Utils/dataframe_builder.py:79-91 | the dicts are flattened in order: rows of a concatenation are the concatenated rows |
| DataframeBuilder.SingleRowsLabels | Utils/dataframe_builder.py:56-77 | every row of one dict carries the entity id and that dict's network |
| DataframeBuilder.FlatRowsWholeBrain | Utils/dataframe_builder.py:79-82 | with `use_RSN` false every row is labelled `Whole-Brain` |
| DataframeBuilder.MetadataAttached | Utils/dataframe_builder.py:94-96 | every metadata key and value is set on every row; other cells and the row count are unchanged |
| DataframeBuilder.ProcessSingleRow | Utils/dataframe_builder.py:56-77 | the loop over a dict's observables returns exactly the specified rows, in order |
| DataframeBuilder.AppendVectorRows | Utils/dataframe_builder.py:68-76 | the loop over a vector appends exactly that vector's rows to the rows so far |
| DataframeBuilder.ObservablesToLong | Utils/dataframe_builder.py:79-98 | `observables_to_long_dataframe` returns the frame of all dicts' rows with the metadata attached |
| DataframeBuilder.Concat | Utils/dataframe_builder.py:150 | the concatenation's columns are exactly the columns of some input frame |
| DataframeBuilder.AllRowsAppend | Utils/dataframe_builder.py:150 | concatenation keeps frame order: rows of a split list are the rows of the parts, joined |
| DataframeBuilder.BuildLongDataframe | Utils/dataframe_builder.py:135-151 | the loop over entity ids returns the concatenation of the per-entity frames, and raises on an empty id list |
| DataframeBuilder.EntityRowsHaveId | Utils/dataframe_builder.py:141-147 | every row of an entity's frame carries that entity's id, when no metadata key is `id` |
| DataframeBuilder.BuildLongInOrder | Utils/dataframe_builder.py:137-150 | the result succeeds for a non-empty id list, and its rows are the first k entities' rows followed by the rest |
| DataframeBuilder.LongToWide | Utils/dataframe_builder.py:158-176 | fails exactly when a named column is missing or a used value is text; otherwise the columns are the id, the metadata, then one per distinct parcel, with one row per distinct key |
| DataframeBuilder.Matching | Utils/dataframe_builder.py:171-174 | the values aggregated into one wide cell are exactly the values of the rows with that index key and that column key |
| DataframeBuilder.KeyMap | Utils/dataframe_builder.py:175 | `reset_index` writes key component i under index column i, and only the index columns |
| DataframeBuilder.Keys | Utils/dataframe_builder.py:171-175 | the wide rows' index keys are distinct and are exactly the keys of the aggregated rows |
| DataframeBuilder.ColumnKeys | Utils/dataframe_builder.py:171-175 | the wide columns are distinct and are exactly the column-key cells of the aggregated rows |
| DataframeBuilder.Pivot | Utils/dataframe_builder.py:171-175 | the pivot has one row per distinct index key |
| DataframeBuilder.PivotRowKey | Utils/dataframe_builder.py:171-175 | row i of the pivot holds the i-th distinct key in its index cells |
| DataframeBuilder.PivotCovers | Utils/dataframe_builder.py:171-175 | every aggregated row's key has a pivot row |
| DataframeBuilder.PivotFrom | Utils/dataframe_builder.py:171-175 | every pivot row's key is some aggregated row's key |
| DataframeBuilder.PivotDistinct | Utils/dataframe_builder.py:171-175 | no two pivot rows share an index key |
| DataframeBuilder.PivotCell | Utils/dataframe_builder.py:171-175 | the pivot cell under a column key is the mean of the matching values, or null when there are none |
| DataframeBuilder.Features | Utils/dataframe_builder.py:233-235 | the columns that become records are exactly those other than the entity column and the metadata |
| DataframeBuilder.RowToRecords | Utils/dataframe_builder.py:233-250 | the loop over one row's cells returns exactly that row's records, or the `KeyError` of a missing metadata column |
| DataframeBuilder.WideToLong | Utils/dataframe_builder.py:226-252 | the loop over rows returns exactly the specified long frame, or its `KeyError` |
| DataframeBuilder.RecordsLayout | Utils/dataframe_builder.py:230-250 | the record for row i and feature j sits at position i·w + j |
| DataframeBuilder.WideToLongLayout | Utils/dataframe_builder.py:230-252 | the output has rows × features records, ordered row by row |
| DataframeBuilder.RecordFields | Utils/dataframe_builder.py:245-250 | a record holds the entity, the observable name, the column label as index, the cell as value and the row's metadata |
| WideLongRoundTrip.RoundTripSound | Utils/dataframe_builder.py:158-252 | every record of `wide_to_long(long_to_wide(df))` is a record of one of the observable's rows |
| WideLongRoundTrip.RoundTripComplete | Utils/dataframe_builder.py:158-252 | every row of the observable comes back as a record |
| WideLongRoundTrip.RoundTrip | Utils/dataframe_builder.py:158-252 | on a complete, rectangular table with one value per (id, parcel) and metadata fixed per id, both conversions succeed and the (id, parcel, value, metadata) records coming back are exactly the original ones |
| SanityCheck.DefaultArgs | Utils/harmonization_sanity_check.py:20-27 | the keyword defaults: parcel, value, observable, no region column, no metadata, level `parcel`, two subjects per site |
| SanityCheck.MissingEmpty | Utils/harmonization_sanity_check.py:38-51 | no missing column exactly when the five named columns, the metadata and (at region level) the region column exist |
| SanityCheck.ObservedNonEmpty | Utils/harmonization_sanity_check.py:58-68 | if the observable occurs, the filtered table is non-empty |
| SanityCheck.NoRowsNeverRaised | Utils/harmonization_sanity_check.py:58-68 | the "no rows remain" error can never be the outcome |
| SanityCheck.DuplicateCountPositive | Utils/harmonization_sanity_check.py:79-82 | `duplicated().sum()` is positive exactly when two rows have the same key |
| SanityCheck.NoDuplicatesIff | Utils/harmonization_sanity_check.py:75-85 | the duplicate check passes exactly when no two rows agree on the subset columns |
| SanityCheck.OneSitePerSubject | Utils/harmonization_sanity_check.py:92-98 | no subject has more than one distinct site exactly when two rows of a subject never name two different sites |
| SanityCheck.SmallSitesEmpty | Utils/harmonization_sanity_check.py:105-112 | no small site exactly when every site with a subject has at least the minimum number of distinct subjects |
| SanityCheck.CountSetSingleton | Utils/harmonization_sanity_check.py:127-132 | `nunique() == 1` on per-subject counts exactly when there is a subject and all subjects have the same count |
| SanityCheck.ParcelValues | Utils/harmonization_sanity_check.py:168-170 | a parcel's values are exactly the values of that parcel's rows |
| SanityCheck.ParcelVarianceNonZero | Utils/harmonization_sanity_check.py:168-178 | a parcel's variance is nonzero exactly when two of its rows hold different values |
| SanityCheck.ZeroVarianceEmpty | Utils/harmonization_sanity_check.py:168-178 | no zero-variance parcel exactly when every parcel has two differing values |
| SanityCheck.FirstNullColumn | Utils/harmonization_sanity_check.py:185-187 | None exactly when no metadata column has a null; otherwise the first metadata column with one |
| SanityCheck.CheckValuesOk | Utils/harmonization_sanity_check.py:119-187 | checks 6-10 pass exactly when no cell of the whole table's value column is text (the filter keeps the column's object dtype), the observable's values are numbers, coverage is uniform, every parcel varies and the metadata is complete |
| SanityCheck.CheckObservedOk | Utils/harmonization_sanity_check.py:75-187 | checks 3-10 pass exactly when the subset columns exist, keys are unique, sites are sound and checks 6-10 pass |
| SanityCheck.SanityCheckLongDf | Utils/harmonization_sanity_check.py:15-195 | the result is True or an error, never False; at region level without a region column that error comes first, and missing columns come next |
| SanityCheck.DuplicatesReportedFirst | Utils/harmonization_sanity_check.py:75-86 | once the columns exist, two rows of the observable with the same duplicate key are reported as duplicates, whatever the later checks would find |
| SanityCheck.SanityCheckOk | Utils/harmonization_sanity_check.py:15-195 | the validator returns True exactly when the table is ready: columns, observable, unique keys, one site per subject, enough subjects per site, no text anywhere in the value column, numeric values for the observable, uniform coverage, varying parcels and complete metadata |
| SanityCheck.TextElsewhereRejected | Utils/harmonization_sanity_check.py:62-120 | a text value in a row of any observable makes the validator fail, since the filtered column keeps the whole column's object dtype |
| Harmonize.CheckSites | Utils/harmonize.py:15-18 | given a site column that exists (`value_counts` raises `KeyError` otherwise), the counts have an entry for exactly the non-null sites; each entry is the number of rows of that site, at least 1 |
| Harmonize.KeepSitesKeeps | Utils/harmonize.py:89-91 | filtering on a column keeps a row exactly when that cell is null or is not a value that occurs exactly once in the site column |
| Harmonize.DropSingletonSitesAsWritten | Utils/harmonize.py:89-91 | the filter as written fails, with the missing column `site`, exactly when the table has no `site` column; otherwise the columns are kept and rows only go |
| Harmonize.DropSingletonSites | Utils/harmonize.py:89-91 | the intended filter keeps the columns and only removes rows |
| Harmonize.DropSingletonSitesKeeps | Utils/harmonize.py:88-91 | a row survives exactly when its site is null or has at least two rows |
| Harmonize.DropSingletonSitesBySite | Utils/harmonize.py:88-91 | a single-row site loses its row; a site with two or more rows keeps all of them |
| Harmonize.DropSingletonSitesAgree | Utils/harmonize.py:89-91 | with the site column named `site`, the filter as written equals the intended one |
| Harmonize.DropSingletonSitesAsWrittenRaises | Utils/harmonize.py:89-91 | for a site column named `Site_ID`, the filter as written raises; the intended one drops the single-row site |
| Harmonize.RemoveNaN | Utils/harmonize.py:37-40 | the kept rows are exactly the complete input rows; a complete table is returned unchanged |
| Harmonize.Prepared | Utils/harmonize.py:88-94 | the filtered table keeps the columns and has no more rows than the input |
| Harmonize.PreparedRows | Utils/harmonize.py:88-94 | a row reaches the estimator exactly when it is complete and its cell under the filter column (the literal `site` as written, `site_col` as intended) is null or not a value occurring exactly once under `site_col` |
| Harmonize.RegionData | Utils/harmonize.py:99 | the region-level matrix is rows × features, with cell (i, j) feature j of row i |
| Harmonize.GlobalData | Utils/harmonize.py:103 | the global-level matrix is rows × 1, with row i the mean of row i's features |
| Harmonize.RenameSite | Utils/harmonize.py:113 | every label equal to the site column becomes `SITE`; the others are kept |
| Harmonize.Covariates | Utils/harmonize.py:80-113 | the covariate table has the renamed labels of `[site_col] + covariates`, one row per retained row, holding that row's cells |
| Harmonize.CovariatesAligned | Utils/harmonize.py:106-113 | covariate row i holds row i's site and covariates in order |
| Harmonize.SetCells | Utils/harmonize.py:137-148 | written feature cells take the new values; every other column is untouched |
| Harmonize.FirstTextFeature | Utils/harmonize.py:99-103 | None exactly when no retained feature cell is text; otherwise a feature with a text cell |
| Harmonize.CheckArguments | Utils/harmonize.py:73-83 | no error exactly when the site column exists, the level is `global` or `region`, and every feature and covariate column exists; a missing site column is reported first |
| Harmonize.HarmonizeDataset | Utils/harmonize.py:43-151 | a successful call needs a `site` column, the site column and a covariate list with distinct labels, none of them the site column or `SITE`; its output has the input's columns and no more rows |
| Harmonize.HarmonizeDatasetIntended | Utils/harmonize.py:43-151 | the corrected call: success needs the site column and a covariate list with distinct labels, none of them the site column or `SITE`; the output has the input's columns and no more rows |
| Harmonize.Harmonized | Utils/harmonize.py:96-148 | after filtering, success needs a covariate list whose labels are distinct and neither the site column nor `SITE` (line 118 raises otherwise); the output keeps the filtered rows in order, and every non-feature cell is unchanged |
| Harmonize.FirstClash | Utils/harmonize.py:115-119 | None exactly when every covariate occurs once among the renamed labels; otherwise the first covariate that does not, the one whose `dtype` lookup raises |
| Harmonize.CovariateLabelsUnique | Utils/harmonize.py:80-119 | every covariate occurs once among the renamed labels exactly when none is the site column, none is `SITE` and none repeats |
| Harmonize.SiteCovariateRaises | Utils/harmonize.py:113-119 | naming the site column as a covariate fails at line 118 |
| Harmonize.RepeatedCovariateRaises | Utils/harmonize.py:113-119 | naming a covariate twice fails at line 118 |
| Harmonize.HarmonizedOk | Utils/harmonize.py:96-148 | after filtering, the rest succeeds exactly when the covariate labels are sound, the features are numeric and the estimator returns the shape it was given |
| Harmonize.Adjust | Utils/harmonize.py:106-148 | the write-back keeps the rows in order, and every non-feature cell is unchanged |
| Harmonize.HarmonizeOk | Utils/harmonize.py:74-148 | the call succeeds exactly when the level is valid, every named column exists, a `site` column exists, a covariate list is given with distinct labels that are neither the site column nor `SITE`, the retained features are numeric and the estimator returns the shape it was given |
| Harmonize.RegionResult | Utils/harmonize.py:97-137 | at region level the rows retained by the as-written filter are kept in order, feature cell (i, j) is the estimator's (i, j), and other columns are unchanged |
| Harmonize.GlobalResult | Utils/harmonize.py:100-148 | at global level, over the rows retained by the as-written filter, every feature of row i is multiplied by h_i/(m_i + 1e-8), and other columns are unchanged |
| Harmonize.ScaledKeepsRatio | Utils/harmonize.py:143-148 | one factor per row keeps the ratio of any two features of the row |
| Harmonize.GlobalIdentity | Utils/harmonize.py:139-148 | with an estimator that changes nothing, the factor of each retained row is m_i/(m_i + 1e-8) |
| Harmonize.HarmonizeAgree | Utils/harmonize.py:89-91 | with the site column named `site`, the code as written and the intended call give the same result |
| Harmonize.IntendedKeepsNoSingleton | Utils/harmonize.py:88-91 | every row the intended call returns has a site, and that site has at least two rows in the input |
| Harmonize.HarmonizeAsWrittenRaises | Utils/harmonize.py:91 | on two complete rows of one site under `Site_ID`, the code as written fails on the missing column `site`, while the intended call succeeds |
| Harmonize.RowMeanOfConstant | Utils/harmonize.py:103 | a row whose features all hold x has global signal x |
| RsnTransfer.Split | RSN/RSN_transfer.py:54 | `split` gives at least one field |
| RsnTransfer.SplitJoin | RSN/RSN_transfer.py:54 | joining the fields back gives the label, and no field contains the separator |
| RsnTransfer.JoinSplit | RSN/RSN_transfer.py:54 | fields without the separator are recovered by splitting their join |
| RsnTransfer.FirstSubstring | RSN/RSN_transfer.py:56-58 | the index of the first sub-area contained in the field, or None when none is |
| RsnTransfer.ExtractRSNName | RSN/RSN_transfer.py:53-65 | raises exactly when there is no third field, or when a non-empty sub-area list needs a missing fourth field; the result starts with the network name |
| RsnTransfer.ExtractPlain | RSN/RSN_transfer.py:54-55 | with no sub-area list and no hemisphere the result is the third field |
| RsnTransfer.ExtractDefaultExample | RSN/RSN_transfer.py:50-52 | `7Networks_LH_Default_Temp_8` gives `Default`, or `Default_LH` with hemispheres |
| RsnTransfer.ExtractDetailMatch | RSN/RSN_transfer.py:55-58 | a matching sub-area list appends its first match |
| RsnTransfer.ExtractDetailNoMatch | RSN/RSN_transfer.py:59-62 | a non-empty list without a match appends `_OTHER`; an empty list appends nothing |
| RsnTransfer.ExtractWithHemisphere | RSN/RSN_transfer.py:63-64 | `useLR` appends `_` and the second field after any sub-area, failing exactly when the plain call fails |
| RsnTransfer.FirstNonInteger | RSN/RSN_transfer.py:72 | the first ROI label that `int()` refuses, or None when all are integers; `int()` strips the white space `str.isspace` names |
| RsnTransfer.CleanNames | RSN/RSN_transfer.py:73 | one cleaned name per ROI name in order, or the error of one of them; success exactly when every name extracts |
| RsnTransfer.CollectNamesRSN | RSN/RSN_transfer.py:71-74 | one cleaned name per ROI in order; a non-integer ROI label raises; success exactly when every label is an integer and every name extracts |
| RsnTransfer.Positions | RSN/RSN_transfer.py:81 | exactly the positions holding the label, increasing |
| RsnTransfer.Indices4RSNs | RSN/RSN_transfer.py:77-83 | one entry per distinct label, holding exactly its positions in order |
| RsnTransfer.IndicesPartition | RSN/RSN_transfer.py:77-83 | the index lists partition the parcel positions |
| AdniB.Classification | DataLoaders/ADNI_B.py:76-82 | every classified subject maps to a group that lists it |
| AdniB.ClassificationKeys | DataLoaders/ADNI_B.py:76-82 | exactly the subjects of the group tables are classified |
| AdniB.ClassificationLastGroupWins | DataLoaders/ADNI_B.py:78-81 | a subject in several groups is classified under the last of them |
| AdniB.Discard | DataLoaders/ADNI_B.py:84-88 | discarding keeps the set of groups |
| AdniB.DiscardEffect | DataLoaders/ADNI_B.py:84-88 | an unknown id changes nothing; a known id leaves its own group's table, and nothing else changes |
| AdniB.Loader.constructor | DataLoaders/ADNI_B.py:44 | the loader has the groups HC, MCI, AD and the given tables |
| AdniB.Loader.GetClassification | DataLoaders/ADNI_B.py:76-82 | the loop returns the classification of the loader's state |
| AdniB.Loader.DiscardSubject | DataLoaders/ADNI_B.py:84-88 | the tables become those of discarding the id; the groups stay |
| AdniB.ParsePlain | DataLoaders/ADNI_B.py:329 | an upper-case word parses as a plain group |
| AdniB.ParseBurden | DataLoaders/ADNI_B.py:329 | `G(B)`, `G(B+)`, `G(B-)` parse to group, burden and sign |
| AdniB.ParseRender | DataLoaders/ADNI_B.py:329 | every well-formed group spec is parsed back from its label |
| AdniB.ParseLabel | DataLoaders/ADNI_B.py:329 | a label that matches is the rendering of its well-formed spec, up to the trailing newline `$` allows |
| AdniB.AbetaStatus | DataLoaders/ADNI_B.py:90-95 | the lookup fails exactly when the PTID or ABeta_pvc column is missing or no row has the subject's PTID; otherwise it reads ABeta_pvc from the first such row |
| AdniB.AssignFails | DataLoaders/ADNI_B.py:333-348 | relabelling a subject fails exactly when a burden label that takes its group performs the failing lookup |
| AdniB.AssignNone | DataLoaders/ADNI_B.py:333-348 | a subject keeps no label exactly when no label takes it and no lookup fails |
| AdniB.AssignSome | DataLoaders/ADNI_B.py:333-348 | a subject that keeps a label gets the last label that takes it |
| AdniB.AssignErrorIsLookup | DataLoaders/ADNI_B.py:341 | the only error is the metadata lookup failure |
| AdniB.AssignFailsExtend | DataLoaders/ADNI_B.py:333-348 | once a prefix of the labels fails, the whole list fails |
| AdniB.RelabelOne | DataLoaders/ADNI_B.py:333-348 | the inner loop returns exactly the specified outcome |
| AdniB.Relabeled | DataLoaders/ADNI_B.py:331-348 | every relabelled subject was classified before, and its new label is one of the labels, contains its old group and matches the pattern |
| AdniB.Relabel | DataLoaders/ADNI_B.py:331-348 | the outer loop returns exactly the specified relabelled classification, or its error |

## Left out

- Floating point: values are exact reals, and `Null` stands for NaN and for infinities alike. `dropna` and `isfinite` therefore treat infinities as missing.
- Numeric cells keep their type: `Int(1)` and `Real(1.0)` are different cells. Where the source computes with a value, both are numbers (`NumValue`). The amyloid status test accepts either 0 or 0.0, and either 1 or 1.0. Where cells are compared as keys, the model treats them as distinct, while pandas treats `1 == 1.0`. This covers `value_counts`, `isin`, pivot grouping, `duplicated` and the PTID lookup.
- SanityCheck.ZeroVarianceSet: the sample variance is not computed. Over exact reals it is zero exactly when all of a parcel's values are equal, and a single value gives NaN filled with 0. The model tests "no two values differ" directly, so floating-point rounding of the variance is not captured.
- SanityCheck.CheckValues: the value column's dtype is judged from its cells, and a text cell anywhere makes it object. pandas also gives object dtype to a column built only from `None`. `np.isfinite` raises `TypeError` on that column, but the model reports `NonFiniteValues`. Both outcomes are errors.
- SanityCheck.CheckObserved: pandas' `KeyError` for a `None` label in the `duplicated` subset is modelled as `SubsetColumnMissing`. It arises at a level other than global, parcel or region, when no region column is given.
- The order in which `pivot_table` sorts its rows and columns is not modelled: the model keeps first-appearance order. The round trip is therefore stated on the set of records.
- The order of `value_counts` in `check_sites` is not modelled: the result is a map.
- `iterrows` upcasting of mixed-type rows is not modelled: cells keep their own type.
- `pd.get_dummies` on the covariates is left out. With `drop_first` it replaces each text covariate by indicator columns. The model hands the raw covariate table to an arbitrary `Adjuster`, and that adjuster may be ComBat composed with `get_dummies`. Of that step only its failures are modelled: the `TypeError` of a `None` covariate list (`NoCovariateList`), and the `KeyError` or `AttributeError` of a covariate whose label the renamed table holds other than once (`CovariateLabel`).
- The in-place cast of the site column to `category` is left out, because it changes the dtype, not the values. The model never changes its input table.
- The ComBat estimator is an arbitrary parameter of type `Adjuster`. An output of the wrong shape is reported as `ShapeMismatch`, so numpy broadcasting of a wrong-shaped result is not modelled.
- Harmonize.RowMean: with no feature columns, pandas hands the estimator NaN means, while the model hands it 0. No feature cell is written either way.
- Harmonize.SetCells: repeated feature labels are written last-wins. The proved cell contents assume distinct feature labels.
- Harmonize.FirstTextFeature: the `TypeError` that pandas or the estimator raises on a text feature is modelled as `NonNumericFeature`.
- `report_sites`, the `print` calls and the `verbose` flag are left out: they only print.
- Loading and saving files are left out: `_loadAllData`, `get_subjectData`'s file-backed parts, burdens, CSV readers and writers.
- The ADNI-B constructor's own subject discarding is left out. The loader starts from the tables `_loadAllData` produces.
- FirstNonInteger: `int()` also accepts non-ASCII decimal digits, such as Arabic-Indic digits. The model accepts only ASCII digits, with single underscores and an optional sign, surrounded by any white space that `str.isspace` names.
- `findClosestPoints` and `assignRSNLabels`, the k-d tree label transfer, are left out, because they are nearest-neighbour geometry over floats.
- The nested shape of `observables_to_long_dataframe`'s input is carried by the `ObsInput` datatype (`Flat` or `Nested`) instead of a separate `use_RSN` flag.

## Findings

| source | as written | input that shows it | evidently intended | confidence | as-written member | corrected member |
|---|---|---|---|---|---|---|
| Utils/harmonize.py:91 | sites with one row are counted on `site_col` but removed by looking them up in the literal column `'site'`, so a table without that column raises `KeyError` | the file's own demonstration: `site_col='Site_ID'` and no `site` column (Utils/harmonize.py:179-184) | look the sites up in `df_wide[site_col]` | not executed | Harmonize.HarmonizeDataset, on Harmonize.DropSingletonSitesAsWritten (Harmonize.HarmonizeAsWrittenRaises, Harmonize.DropSingletonSitesAsWrittenRaises) | Harmonize.HarmonizeDatasetIntended, on Harmonize.DropSingletonSites (Harmonize.IntendedKeepsNoSingleton, Harmonize.DropSingletonSitesBySite) |
