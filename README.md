# Well-log petrophysics engine and per-well pipeline

This project is a Dafny model of the core of a well-log interpretation tool. It covers two parts:

- **The engine** in `app/modules/petrofisica.py`:
  - the `PetroConfig` parameter holder and its constant tables;
  - the five `PetroPhysics` formulas: Larionov shale volume, density and neutron-density porosity, effective porosity, Archie water saturation and Kozeny-type permeability;
  - the `classify_advanced` lithology tree;
  - `detect_dominant_matrix`, `clean_depth_data`, `smooth_curve`, `flag_bad_data` and `get_valid_data_range`.
- **The per-well loop** of `app/main.py`. It takes one LAS frame through these steps:
  1. depth column and curve alias resolution;
  2. matrix detection, and the Archie parameter override that follows it;
  3. smoothing;
  4. the VSH columns;
  5. the lithology and matrix-density columns;
  6. the PHI_T, PHI_E, SW and PERM columns;
  7. the net-pay flags;
  8. the statistical summary.

How the model is represented:

- **Missing values.** A missing sample (pandas' NaN) is `None` of `Values.Option<real>`. A curve is a `Column`, a sequence of such samples with one entry per depth row.
- **Borrowed numerics.** numpy's `2**x`, `np.sqrt` and `**`, scipy's `median_filter`, and pandas' `median`/`quantile` are not computed here. They are passed in as function values (module `Numerics`). Each is constrained only by the laws a proof needs, for example "2^x never decreases" or "the median filter returns one value per input".
- **The engine's formulas** are functions.
- **`PetroConfig`**, whose class attributes the pipeline overwrites, is a class with fields.
- **The pandas frame of one well**, which the pipeline fills in column by column, is the class `WellPipeline.Well`. Its stage methods run the source's row loops and write the new columns into the fields.
- **Specifications.** Each stage method is proved against a function of module `WellColumns` that says what the column holds. The properties the source promises are lemmas about those functions.

## Model

| member | source | states |
|---|---|---|
| Values.Clip | app/modules/petrofisica.py:66 | `np.clip` lands in [lo, hi], leaves in-range values alone and sends values below or above the range to the nearest bound |
| Values.DropMissing | app/main.py:302 | `dropna` keeps at most as many values as rows, and every kept value is a present sample of the column |
| Values.DropMissingCount | app/main.py:302 | `dropna` keeps exactly one value per row holding a present sample |
| Values.DropMissingOrder | app/main.py:302 | `dropna` keeps the samples in row order: a present sample sits at the position given by the number of present samples above it |
| Values.AnyValidIffCount | app/main.py:293 | "any value present" holds exactly when the count of valid values is positive |
| Values.AllMissing | app/main.py:258 | an unmatched canonical curve becomes a column of the frame's length with no present value |
| Config.MatrixDensityIsTabled | app/modules/petrofisica.py:14-21 | the density paired with each dominant matrix label is that label's grain density in RHO_MATRIX |
| Config.ArchieDefined | app/modules/petrofisica.py:26-32 | every label the matrix detector can return is a key of ARCHIE_PARAMS, and its entry is A = 1, M = 2, N = 2 |
| Config.PetroConfig.constructor | app/modules/petrofisica.py:34-44 | the class defaults are A = 1, M = 2, N = 2, RW = 0.05, matrix ARENISCA at 2.65, and cut-offs of 0.06, 0.50 and 0.70 |
| Config.PetroConfig.ApplySidebar | app/main.py:66-73 | the sidebar writes A, M, N, RW and the three cut-offs, and leaves the dominant matrix as it was |
| Config.PetroConfig.ApplyDominantMatrix | app/main.py:268-276 | after detection the matrix and its density are recorded and A, M, N are always overwritten with 1, 2, 2; RW and the cut-offs stay as they were |
| PetroPhysics.GammaRayIndex | app/modules/petrofisica.py:66 | the gamma-ray index is in [0, 1]; it is NaN exactly when the range is zero and the reading sits on it, as numpy's 0/0 gives |
| PetroPhysics.VshLarionov | app/modules/petrofisica.py:62-68 | shale volume is NaN for a NaN reading, or for a reading on a degenerate range; otherwise it is in [0, 1] |
| PetroPhysics.VshCleanSand | app/modules/petrofisica.py:62-68 | with gr_min < gr_max, a reading at or below the clean line gives exactly zero shale |
| PetroPhysics.VshMonotone | app/modules/petrofisica.py:62-68 | with gr_min < gr_max, shale volume never decreases as gamma ray rises |
| PetroPhysics.PorosityDensity | app/modules/petrofisica.py:71-82 | density porosity is NaN exactly when the bulk density is NaN, and otherwise lies in [0, 0.45] |
| PetroPhysics.UncorrectedPorosity | app/modules/petrofisica.py:78 | the uncorrected density porosity is clipped to [0, 0.45] |
| PetroPhysics.PorosityDensityCorrectionSkipped | app/modules/petrofisica.py:73-82 | a NaN shale volume counts as none; a non-positive shale volume skips the correction; a matrix as dense as shale makes the correction zero |
| PetroPhysics.ShaleLowersPorosity | app/modules/petrofisica.py:79-82 | with the matrix denser than fluid and shale, more shale never raises density porosity |
| PetroPhysics.DensityLowersPorosity | app/modules/petrofisica.py:78-82 | with the matrix denser than the fluid, a denser reading never gives more porosity |
| PetroPhysics.RootMeanSquareBetween | app/modules/petrofisica.py:94 | the root mean square of two non-negative values lies between them |
| PetroPhysics.PorosityNeutronDensity | app/modules/petrofisica.py:85-95 | neutron-density porosity is NaN exactly when NPHI or RHOB is NaN, and otherwise lies in [0, 0.45] |
| PetroPhysics.NeutronDensityIsAMean | app/modules/petrofisica.py:85-95 | for a non-negative neutron reading the result lies between the neutron porosity and the density porosity |
| PetroPhysics.EffectivePorosity | app/modules/petrofisica.py:98-102 | effective porosity is present exactly when both inputs are; it lies between 0 and PHI_T for a shale volume in [0, 1]; it equals PHI_T with no shale and is 0 with all shale |
| PetroPhysics.ShaleReductionBounds | app/modules/petrofisica.py:102 | with a non-negative porosity and a shale volume in [0, 1], the shale-reduced porosity lies between 0 and the porosity |
| PetroPhysics.WaterSaturation | app/modules/petrofisica.py:105-112 | NaN in PHI or RT gives NaN, checked before the guard; otherwise a non-positive PHI or RT gives exactly 1.0; every result is in [0, 1] |
| PetroPhysics.SaturationFallsWithResistivity | app/modules/petrofisica.py:111-112 | with n > 0, a·rw > 0 and phi > 0, a higher positive deep resistivity never raises the Archie saturation |
| PetroPhysics.Kozeny | app/modules/petrofisica.py:124 | the Kozeny proxy is positive on (0, 1) |
| PetroPhysics.KozenyMonotone | app/modules/petrofisica.py:124 | the proxy grows with porosity on (0, 1) |
| PetroPhysics.PermeabilityKozeny | app/modules/petrofisica.py:115-125 | permeability is NaN exactly on NaN input; otherwise it is in [0, 10000] and positive exactly when phi > 0 and phi·(1−vsh) is in (0, 1) |
| PetroPhysics.ShaleReducedMono | app/modules/petrofisica.py:121 | for a positive porosity and a shale volume in [0, 1), the shale-reduced porosity is positive and grows with porosity |
| PetroPhysics.PermeabilityMonotone | app/modules/petrofisica.py:115-125 | at a fixed shale volume in [0, 1), permeability never falls as porosity rises, as long as phi·(1−vsh) stays below 1 |
| PetroPhysics.PorosityDensityExample | app/modules/petrofisica.py:71-82 | 2.66 g/cc in a limestone matrix with fresh water and 20% shale gives 0.048/1.71 |
| LithoClassifier.ClassifyAdvanced | app/modules/petrofisica.py:132-173 | the label is always one of LUTITA, DOLOMITA, CALIZA, ARENISCA or ARENISCA_ARCILLOSA, and it is LUTITA exactly when vsh is present and above 0.7 |
| LithoClassifier.ClassifyIgnoresNeutron | app/modules/petrofisica.py:138-173 | neutron porosity never changes the label |
| LithoClassifier.MissingDensityIsMatrixDensity | app/modules/petrofisica.py:136-137 | a missing density classifies like the dominant matrix's grain density |
| LithoClassifier.DominantMatrixInfluence | app/modules/petrofisica.py:132-173 | two dominant matrices give different labels only when rhob is missing, or when 2.60 < rhob ≤ 2.68 with vsh ≤ 0.35 and no PEF rule fired |
| LithoClassifier.MissingDensityGivesMatrix | app/modules/petrofisica.py:136-173 | in a clean interval with no PEF rule, a missing density is classified as the dominant matrix itself |
| LithoClassifier.HighPefIsCarbonate | app/modules/petrofisica.py:144-150 | below the shale cut, a PEF above 2.5 always gives DOLOMITA or CALIZA |
| LithoClassifier.ShalyIntervalLabels | app/modules/petrofisica.py:155-159 | without PEF, a shale volume in (0.35, 0.7] gives CALIZA when the density exceeds 2.68 and ARENISCA_ARCILLOSA otherwise |
| MatrixDetection.MatrixRule | app/modules/petrofisica.py:225-244 | a PEF median in (2.5, 4.5] gives DOLOMITA; below 2.2 gives ARENISCA; in [2.2, 2.5] uses the 2.75/2.68 density thresholds; above 4.5 gives DOLOMITA exactly when the density median exceeds 2.80, and never ARENISCA |
| MatrixDetection.MidDensityUsesGammaRay | app/modules/petrofisica.py:260-270 | without PEF and with a density median in [2.60, 2.68], the matrix is CALIZA exactly when the GR median exists and is below 60, and never DOLOMITA |
| MatrixDetection.DenseWithoutPef | app/modules/petrofisica.py:246-259 | without PEF and with a density median above 2.68, the matrix is ARENISCA exactly when the median is at most 2.80, the upper quartile at most 2.75 and the GR median at least 50 |
| MatrixDetection.DetectDominantMatrix | app/modules/petrofisica.py:215-270 | the label always comes with its canonical density, and a well with no valid RHOB gives (ARENISCA, 2.65) |
| MatrixDetection.DetectedDensityIsTabled | app/modules/petrofisica.py:215-270 | the detected density is RHO_MATRIX's grain density for the detected label |
| MatrixDetection.EmptyCurveIsAbsent | app/modules/petrofisica.py:225-264 | a PEF or GR column with no valid value counts as an absent one |
| MatrixDetection.DetectIgnoresLowerQuartile | app/modules/petrofisica.py:220-223 | two statistics back-ends that agree on the median and the 75th percentile give the same matrix, so the 25th percentile plays no part |
| DepthCleaning.DropMissingDepth | app/modules/petrofisica.py:197-199 | rows without a depth are removed, the present depths are kept, and every kept row is an input row |
| DepthCleaning.DropDuplicateDepths | app/modules/petrofisica.py:201-203 | no depth is left twice, the set of depths is unchanged, and every kept row is an input row |
| DepthCleaning.Insert | app/modules/petrofisica.py:209 | inserting adds exactly one row to the multiset of rows |
| DepthCleaning.InsertOrdered | app/modules/petrofisica.py:209 | insertion keeps a frame ascending, and strictly ascending when the new depth is not already there |
| DepthCleaning.SortByDepth | app/modules/petrofisica.py:209 | sorting gives a permutation of the rows that is ascending, strictly so when the depths are distinct |
| DepthCleaning.NoNegativeStepAscending | app/modules/petrofisica.py:205-208 | a frame with no negative step is ascending throughout, so leaving it unsorted is sound |
| DepthCleaning.KeptRowsAreFirstOccurrences | app/modules/petrofisica.py:197-203 | every row kept by the first two steps is, unchanged, the first input row with its depth |
| DepthCleaning.CleanDepthDataSpec | app/modules/petrofisica.py:193-212 | the cleaned frame is strictly ascending, keeps every present depth exactly once from its first occurrence, is no longer than the input, and is empty for an empty input |
| Smoothing.RefillKeepsMask | app/modules/petrofisica.py:181-182 | writing values back at the valid positions keeps every missing sample missing and every valid one valid |
| Smoothing.RefillReadsBack | app/modules/petrofisica.py:182 | the valid samples of the written-back curve are exactly the filter output, in order |
| Smoothing.SmoothedSpec | app/modules/petrofisica.py:176-183 | smoothing keeps the length and the missing positions; a curve with fewer than `window` valid values comes back unchanged; otherwise its valid values are replaced by the filter output |
| Smoothing.SmoothCurve | app/modules/petrofisica.py:176-183 | the copy-and-assign loop returns the function of `SmoothedSpec`, with the same length, mask and filter output |
| DataQuality.FlagBadData | app/modules/petrofisica.py:186-190 | a row is flagged exactly when the curve exists and its value is present and outside [min, max]; an absent curve flags nothing |
| DataQuality.UnflaggedSamplesAreInRange | app/modules/petrofisica.py:186-190 | a sample is unflagged exactly when it is missing or `np.clip` would leave it unchanged |
| DataQuality.SeqMin | app/modules/petrofisica.py:278 | the minimum is a member that is no larger than any member |
| DataQuality.SeqMax | app/modules/petrofisica.py:278 | the maximum is a member that is no smaller than any member |
| DataQuality.FirstDataRow | app/modules/petrofisica.py:285-286 | the first row with data in a key curve: it has data, and no earlier row does |
| DataQuality.LastDataRow | app/modules/petrofisica.py:285-287 | the last row with data: it has data, and no later row does |
| DataQuality.ValidDataRange | app/modules/petrofisica.py:273-294 | the range is undefined (NaN) exactly for an empty frame |
| DataQuality.ValidDataRangeCovers | app/modules/petrofisica.py:273-294 | on ascending depths the window contains every row with data, and is the whole depth span when no key curve has data |
| DataQuality.ValidDataRangeWidening | app/modules/petrofisica.py:280-294 | when some row has data, the window runs from the depth of the first row with data to that of the last, widened on each side by 2% of the distance between them |
| CurveMapping.FirstPresent | app/main.py:202-205 | the alias found is listed and present, and nothing is found exactly when no alias is present |
| CurveMapping.FirstPresentIsFirst | app/main.py:251-256 | every alias listed before the one chosen is absent |
| CurveMapping.DepthColumn | app/main.py:198-208 | the depth column is the first depth alias present, else the first column; there is none only for a frame without columns |
| CurveMapping.FindFirstPresent | app/main.py:202-205 | the alias loop with `break` returns the first present alias |
| CurveMapping.ResolveDepthColumn | app/main.py:200-208 | the depth loop and its fallback choose `DepthColumn` |
| CurveMapping.RenameDepth | app/main.py:210 | only the depth column is renamed to DEPTH_FT, and the column order is kept |
| CurveMapping.AvailableCurves | app/main.py:250-258 | every mapped name is a canonical name, and it maps to a column that is present |
| CurveMapping.CanonicalsDistinct | app/main.py:230-248 | no canonical name is listed twice in the alias table |
| CurveMapping.AvailableCurvesSpec | app/main.py:250-258 | a canonical name is mapped exactly when one of its aliases is present, and it maps to the first present alias |
| CurveMapping.MapCurves | app/main.py:250-258 | the two nested loops build the `AvailableCurves` mapping |
| WellColumns.SmoothIfDenseSpec | app/main.py:292-294 | smoothing keeps rows and missing positions, leaves curves with at most ten valid values alone, and otherwise replaces the valid values by the window-5 filter output |
| WellColumns.LarionovColumn | app/main.py:302-307 | the Larionov column has one entry per GR row |
| WellColumns.VshPrecedence | app/main.py:299-311 | any present VSH is kept as is; otherwise a row has VSH, in [0, 1], exactly when it has GR off the degenerate line of the 2nd/98th percentiles; without GR, VSH stays all missing |
| WellColumns.RhoMatrixForSpec | app/main.py:326-333 | DOLOMITA, CALIZA and LUTITA rows take their RHO_MATRIX density, CARBONATO the limestone one, and every other label the dominant density |
| WellColumns.RhoMatrixRange | app/main.py:326-333 | with a detected matrix, every row's matrix density is in [2.65, 2.87], so it is never the fluid density |
| WellColumns.TotalPorosity | app/main.py:343-366 | PHI_T has one entry per row |
| WellColumns.TotalPorositySpec | app/main.py:343-366 | a present PHIT takes precedence; otherwise PHI_T is present exactly at the rows with RHOB, lies in [0, 0.45], and is neutron-density where NPHI exists and density-only elsewhere |
| WellColumns.EffectivePorosityRows | app/main.py:369-372 | PHI_E is present exactly where PHI_T and VSH are; it is then PHI_T·(1−VSH) and lies between 0 and PHI_T |
| WellColumns.SaturationRows | app/main.py:377-390 | SW is present exactly where PHI_E and RT are, always in [0, 1], and is all missing in a well without RT, whatever the file carried |
| WellColumns.PermeabilityReducesShaleTwice | app/main.py:393-396 | PERM is fed the already shale-reduced PHI_E, so it is positive exactly when PHI_T·(1−VSH) is positive and PHI_T·(1−VSH)² is in (0, 1) |
| WellColumns.DoubleReductionExample | app/main.py:393-396 | PHI_T = 0.2 and VSH = 0.5 give PHI_E = 0.1, but a permeability computed from 0.05, which is lower than the value for 0.1 |
| WellColumns.NetPayRows | app/main.py:401-408 | a pay row has PHI_E and VSH present and within their cut-offs, and SW too when the well has RT; conversely, present values within every applicable cut-off make the row pay |
| WellColumns.NoResistivityNoSaturationTerm | app/main.py:401-408 | without RT the SW column is all missing, so with an SW cut-off below 1 the three-term rule would find no pay at all |
| WellColumns.PayCount | app/main.py:410 | the net pay is the number of pay rows (the multiplicity of `true` among the flags), so at most the row count and zero exactly when no row is pay |
| WellSummary.SumBounds | app/main.py:436 | values in [lo, hi] add up to between n·lo and n·hi |
| WellSummary.MeanBetween | app/main.py:436-438 | the mean lies between the minimum and the maximum |
| WellSummary.Positive | app/main.py:431 | the PERM filter keeps no more values than it is given, and a value appears in the result exactly when it is a positive value of the input |
| WellSummary.PositiveCount | app/main.py:431 | the PERM filter keeps exactly one value per positive row |
| WellSummary.PositiveOrder | app/main.py:431 | the PERM filter keeps the positive values in row order: each sits at the position given by the number of positive rows above it |
| WellSummary.CurveSummarySpec | app/main.py:430-447 | an entry has min ≤ mean ≤ max and counts the values it summarises, all positive for PERM; it is empty exactly when nothing is left to summarise |
| WellSummary.SummaryOf | app/main.py:424-447 | the summary has at most one entry per curve |
| WellSummary.SummaryOfEntries | app/main.py:424-447 | every entry belongs to a curve with a valid value, under its own name, and is that curve's summary |
| WellSummary.SummaryOfSpec | app/main.py:424-447 | the summary has exactly one entry per curve with a valid value, in the order of the curve list, each that curve's summary under its name, and no other entry |
| WellPipeline.IndexOf | app/main.py:254 | the first column with the given name: it has that name, and no earlier column does |
| WellPipeline.CleanedRowsWidth | app/main.py:211 | cleaning keeps whole rows, so every row keeps one sample per column |
| WellPipeline.CleanedRowsSpec | app/main.py:210-211 | the cleaned frame's depths are strictly ascending; each row is the first raw row with its depth value; every raw depth is present |
| WellPipeline.CurveColumnResolves | app/main.py:250-258 | for any alias table with distinct names, a canonical column holds, row by row, the column of its first present alias, and is all missing when none is present |
| WellPipeline.Well.constructor | app/main.py:210-258 | the new well holds the cleaned depths, DEPTH in metres (× 0.3048) and every mapped curve, with the stage columns empty |
| WellPipeline.Well.SmoothCurves | app/main.py:292-294 | GR, RHOB and NPHI, and only these, are each smoothed when they have more than ten valid values |
| WellPipeline.Well.ComputeVsh | app/main.py:299-311 | the VSH stage leaves the `VshColumn` of the mapped VSH and the smoothed GR |
| WellPipeline.Well.ClassifyRows | app/main.py:316-338 | one label and one matrix density per row, from `classify_advanced` and the label's density rule |
| WellPipeline.Well.ComputePorosity | app/main.py:343-372 | the two porosity loops leave `TotalPorosity` and `EffectivePorosityColumn` |
| WellPipeline.Well.ComputeSaturation | app/main.py:377-390 | after the column is cleared, the SW loop leaves `SaturationColumn` |
| WellPipeline.Well.ComputePermeability | app/main.py:393-396 | the PERM loop leaves `PermeabilityColumn` of PHI_E and VSH |
| WellPipeline.Well.ComputeNetPay | app/main.py:401-410 | IS_PAY is the `NetPay` rule and the net pay is its count |
| WellPipeline.Well.ClassifyStages | app/main.py:292-338 | smoothing, VSH and lithology run in order, and every row's matrix density lies in [2.65, 2.87] |
| WellPipeline.Well.PetrophysicsStages | app/main.py:343-410 | porosity, saturation, permeability and net pay run in order with the given Archie parameters and cut-offs |
| WellPipeline.Well.RunStages | app/main.py:292-410 | the classification stages, then the petrophysics stages |
| WellPipeline.Well.Summarise | app/main.py:424-447 | the summary loop builds `SummaryOf` the PHI_E, VSH, SW and PERM curves, and changes nothing |
| WellPipeline.SmoothWhenDense | app/main.py:292-294 | the conditional smoothing call keeps the length and missing positions, and equals `SmoothIfDense` |
| WellPipeline.BuildWell | app/main.py:198-258 | the depth column is renamed and the frame cleaned; the well holds the cleaned depths, DEPTH in metres and every curve under the first-alias mapping |
| WellPipeline.DetectedMatrix | app/main.py:268 | the matrix detected from the mapped, unsmoothed curves comes with its canonical density |
| WellPipeline.ProcessFrame | app/main.py:210-447 | for a known depth column the loop body leaves the `Pipelined` state: cleaned depths, mapped curves, the detected matrix with A, M, N = 1, 2, 2 in the configuration (RW and the cut-offs as before), every stage column and the summary |
| WellPipeline.ProcessWell | app/main.py:198-447 | a frame without columns is abandoned with the configuration untouched; any other frame is processed with the depth column `DepthColumn` chooses |

## Left out

- The Streamlit interface, file upload, the `lasio` parsing and all input and output are not modelled. A LAS file enters the model as a `LasFrame` of column names and rows. The sidebar values reach the model as the arguments of `ApplySidebar`.
- Plotting, the PDF export modules and the CSV/Excel export are not part of this model. They are rendering and serialisation only.
- Floating point is not modelled. Dafny's `real` is exact, so rounding and overflow are absent. The one IEEE case modelled is the zero-width gamma-ray range of `calc_vsh_larionov`: there numpy's ±inf is clipped and 0/0 is NaN.
- numpy's `2**x`, `np.sqrt` and `**`, scipy's `median_filter` (its boundary mode included), and pandas' `median` and `quantile` (their interpolation included) are parameters (`Transcendentals`, `MedianFilter`, `Statistics`). Only the laws under `Numerics` are assumed of them, and only by the lemmas that name those laws.
- PetroPhysics.PorosityDensity: requires rho_ma ≠ rho_fl, where the source would divide by zero. The pipeline always meets this, because the matrix density is in [2.65, 2.87] and the fluid density is 1.0.
- PetroPhysics.WaterSaturation: requires n ≠ 0, where the source raises ZeroDivisionError computing `1/n`. In the pipeline n is always 2.
- LithoClassifier.ClassifyAdvanced: the porosity argument `phi` is never read by the source and is not a parameter.
- Labels: the substring tests `'DOLOMITA' in lith` and the like in the matrix-density loop are modelled as comparisons of labels. For the seven labels the two agree.
- MatrixDetection.DetectDominantMatrix: the 25th percentile that the source computes and never reads is not evaluated. `DetectIgnoresLowerQuartile` states that it cannot matter.
- CurveMapping.MapCurves: aliases are looked up among the renamed LAS columns. The source looks them up in the growing frame, which also holds the canonical columns added so far. No alias equals an earlier canonical name or DEPTH, so the two lookups agree.
- WellPipeline.IndexOf: column names are assumed to be unique, as `lasio` makes them. A repeated name reads its first column.
- DepthCleaning.SortByDepth: sorting is an insertion sort, not pandas' quicksort. Sort stability does not matter, because the depths are distinct after deduplication.
- `reset_index` is implicit: positions in the cleaned frame are its 0..n−1 index.
- PetroPhysics.Kozeny: the square `(1 − phi)**2` is divided out one factor at a time. Over exact reals this gives the same value.
- The curves that are mapped but never read by any modelled stage are not columns of `Well`: CALI, BS, SP, RM_RES, RXOS, RMC, RMUD, RW and DT. They remain in the `available` mapping.
- The pandas frame is modelled as the fields of `Well`, one field per column the stages read or write, set as whole sequences. Aliasing between these columns and the LAS frame is not modelled.
- `stats_dict` is keyed by the curve's column name instead of its Spanish display label. The all-`None` entry is `None`; the model only records the empty case, without a `valid` count of 0.
- `flag_bad_data` is imported but never called by the per-well loop; it is modelled on its own, with a missing column given as `None`.
- `get_valid_data_range` is called by the per-well loop only to set the depth window of the log plot, which is not modelled. The function itself is modelled on its own, with a missing key curve given as `None`.
- Two behaviours of the pipeline are modelled as written, each with a lemma that exhibits it:
  - The SW column is cleared before the check for pre-calculated values, so a saturation curve in the file is never used (`Well.ComputeSaturation`, `SaturationRows`).
  - Permeability is computed from PHI_E, which is already shale-reduced, so shale is taken out twice (`PermeabilityReducesShaleTwice`, `DoubleReductionExample`).
