# Meteorological data transforms: a Dafny model

This project models `operational_analysis/toolkits/met_data_processing.py` of
OpenOA. That module computes derived meteorological quantities column by
column: wind direction from (u, v) and (u, v) from speed and direction, air
density, hydrostatic pressure extrapolation, density-adjusted wind speed,
turbulence intensity, the wind shear exponent and wind veer.

The model keeps the control logic and the range handling of these transforms:

- the whole-column validation that rejects a call with any negative input;
- the 360 -> 0 collapse of wind directions;
- the two ordered masked updates that fold a direction difference into (-180, 180];
- the shear estimator's dispatch on the number of heights;
- the shear estimator's per-row missing-data policy.

Columns are `seq<real>`. Where missing values matter (the shear estimator),
cells are `Cell = Missing | Value(v)`. A call that validates first returns
`Result = Ok(..) | Err(..)`. The transcendental functions are function-typed
parameters: `atan2`, the sine and cosine of degrees, `exp`, `ln`, the cube
root, the rounding to ten decimals, and the least-squares fitter. A lemma
that needs a fact about one of them, such as `exp(0) = 1` or the range of
`atan2`, takes that fact as a `requires`.

Modules, one per concern of the source file:

- `MetData` (met_data.dfy): cells, result types, the constants R = 287.058 and g, and the column mean.
- `WindVectors` (wind_vectors.dfy): `compute_wind_direction` and `compute_u_v_components`.
- `Thermodynamics` (thermodynamics.dfy): `compute_air_density` and `pressure_vertical_extrapolation`.
- `WindRatios` (wind_ratios.dfy): `air_density_adjusted_wind_speed` and `compute_turbulence_intensity`.
- `Veer` (veer.dfy): `compute_veer`.
- `Shear` (shear.dfy): `compute_shear`.

The in-place parts of the source are array methods proved against
specification functions:

- the `wd[wd == 360] = 0` update;
- the two masked updates of `delta_dir`;
- the row loop that fills the all-missing `alpha` frame.

A pandas table is modelled as `Table(rows, columns: map<string, seq<Cell>>)`.
The height map is a sequence of `Sensor(column, height)` entries in
dictionary order. The column-renaming step of the multi-height branch becomes
a parallel sequence of normalised heights. Each row becomes the list of
(normalised height, normalised speed) pairs that survive the missing-value
filter.

Places where the model departs from the code as written:

- The source indexes a dictionary view (`keys[0]`, line 142). It also uses
  `iteritems` (line 156) and `DataFrame.as_matrix` (line 168). All three fail
  on current Python and pandas. The model gives the intended behaviour:
  first and second map entries in map order, iteration over (key, value)
  pairs, and a row read as (height, value) pairs.
- A missing reference column, or a sensor column absent from the table,
  raises a `KeyError` in the code. The model returns
  `Err(MissingColumn(name))`. The two-height branch evaluates
  `np.log(df[wind_b])` first, so `b` is checked before `a`. The multi-height
  branch checks the sensor columns in map order, then the reference column.
  A reference column that is in the table but not in the height map fails at
  `windspeed_heights[ref_col]` (line 155); this is
  `Err(ReferenceWithoutHeight(name))`. A zero reference height makes the
  Python float division `v / h0` of line 156 raise `ZeroDivisionError`; this
  is `Err(ZeroReferenceHeight)`.
- `ref_col` defaults to the string `'empty'` (line 121). The model has no
  default arguments: a call that omits `ref_col` passes `"empty"`.
- The height map is a Python dictionary, so its keys are distinct. The model's
  sequence of sensors carries that as a precondition (`DistinctColumns`).
- `curve_fit` raises an error when it does not converge, and nothing in
  lines 164-175 catches it. The model's fitter always returns a value (see
  Left out).

## Model

| member | source | states |
|---|---|---|
| WindVectors.FullTurnToZero | operational_analysis/toolkits/met_data_processing.py:19 | no output element is exactly 360; an element equal to 360 becomes 0; every other element is unchanged; the length is kept |
| WindVectors.FullTurnToZeroInRange | operational_analysis/toolkits/met_data_processing.py:18-19 | a column inside [0, 360] is inside [0, 360) after the collapse |
| WindVectors.RawDirectionInRange | operational_analysis/toolkits/met_data_processing.py:18 | if atan2 returns a value in [-pi, pi], then 180 + atan2 * 180 / pi lies in [0, 360] |
| WindVectors.CollapseFullTurn | operational_analysis/toolkits/met_data_processing.py:19 | the in-place masked update leaves the buffer equal to FullTurnToZero of its old contents |
| WindVectors.ComputeWindDirection | operational_analysis/toolkits/met_data_processing.py:18-21 | one direction per (u, v) row; never exactly 360; equal to the raw direction except that 360 becomes 0; inside [0, 360) whenever atan2 stays in [-pi, pi] |
| WindVectors.ComputeUVComponents | operational_analysis/toolkits/met_data_processing.py:35-41 | fails as a whole if and only if some speed or some direction is negative; otherwise returns two columns of the input length holding the rounded -speed*sin and -speed*cos of each row |
| WindVectors.ComponentsKeepSpeed | operational_analysis/toolkits/met_data_processing.py:38-39 | on valid input, and given sin^2 + cos^2 = 1, the unrounded components of each row have the wind speed as their Euclidean norm |
| Thermodynamics.ComputeAirDensity | operational_analysis/toolkits/met_data_processing.py:57-63 | fails as a whole if and only if some temperature or pressure is negative; otherwise returns one non-negative density per row with rho * T * R = p (the ideal gas law) |
| Thermodynamics.Density | operational_analysis/toolkits/met_data_processing.py:60-61 | the density of one row is non-negative and satisfies rho * T * R = p |
| Thermodynamics.PressureVerticalExtrapolation | operational_analysis/toolkits/met_data_processing.py:80-86 | fails as a whole if and only if some p0 or some mean temperature is negative; otherwise returns one pressure per row, p0 * exp(-g (z1 - z0) / R / T) |
| Thermodynamics.SameHeightKeepsPressure | operational_analysis/toolkits/met_data_processing.py:84 | given exp(0) = 1, extrapolating to z1 = z0 returns exactly Ok(p0) |
| Thermodynamics.PressureFallsWithHeight | operational_analysis/toolkits/met_data_processing.py:84 | given exp maps negative numbers into (0, 1), a positive pressure extrapolated upward through a warm layer stays positive and strictly decreases |
| MetData.SumOfConstant | operational_analysis/toolkits/met_data_processing.py:100 | the sum of a column whose rows all hold c is the row count times c |
| MetData.MeanOfConstant | operational_analysis/toolkits/met_data_processing.py:100 | the mean of a non-empty column whose rows all hold c is c |
| WindRatios.AirDensityAdjustedWindSpeed | operational_analysis/toolkits/met_data_processing.py:100-103 | one adjusted speed per row, computed from that row's speed and density and the single mean of the whole density column |
| WindRatios.AdjustedSpeedIsRowLocal | operational_analysis/toolkits/met_data_processing.py:100-101 | two inputs with the same mean density that agree on one row's speed and density agree on that row's adjusted speed |
| WindRatios.MeanDensityKeepsSpeed | operational_analysis/toolkits/met_data_processing.py:101 | given cbrt(1) = 1, a row whose density equals the mean keeps its wind speed |
| WindRatios.UniformDensityKeepsSpeed | operational_analysis/toolkits/met_data_processing.py:100-101 | given cbrt(1) = 1, a constant non-zero density column has that constant as its mean and leaves the whole speed column unchanged |
| WindRatios.ComputeTurbulenceIntensity | operational_analysis/toolkits/met_data_processing.py:118 | one value per row, with intensity * mean = standard deviation |
| WindRatios.TurbulenceIntensityScaleFree | operational_analysis/toolkits/met_data_processing.py:118 | scaling every mean and deviation by one non-zero factor leaves the intensity column unchanged |
| Veer.NormalizedDeltaInRange | operational_analysis/toolkits/met_data_processing.py:198-202 | for directions in [0, 360], the folded difference lies in (-180, 180] and differs from the raw difference by exactly 0, +360 or -360 |
| Veer.CorrectedAtMostOnce | operational_analysis/toolkits/met_data_processing.py:201-202 | a difference above 180 is lowered once and never raised again; one at or below -180 is raised once; one already in (-180, 180] is untouched |
| Veer.VeerAcrossNorth | operational_analysis/toolkits/met_data_processing.py:198-204 | directions 350 at 10 m and 10 at 30 m give a folded difference of 20 and a veer of 1 degree per metre |
| Veer.FoldDownInPlace | operational_analysis/toolkits/met_data_processing.py:201 | the in-place update lowers by 360 exactly the elements above 180 and changes no other element |
| Veer.FoldUpInPlace | operational_analysis/toolkits/met_data_processing.py:202 | the in-place update raises by 360 exactly the elements at or below -180 and changes no other element |
| Veer.ComputeVeer | operational_analysis/toolkits/met_data_processing.py:198-204 | one veer per row; veer times the height difference is the folded direction difference, which is in (-180, 180] for directions in [0, 360] |
| Shear.FirstMissing | operational_analysis/toolkits/met_data_processing.py:146 | reports a name exactly when some listed column is absent from the table, and the name it reports is the first absent one in list order |
| Shear.FindSensor | operational_analysis/toolkits/met_data_processing.py:155 | finds an entry for the reference column if and only if the height map has one, and the index it returns is such an entry |
| Shear.TwoHeightShear | operational_analysis/toolkits/met_data_processing.py:144-146 | one exponent per row; present exactly when both speeds are present; it satisfies alpha (ln hb - ln ha) = ln wb - ln wa |
| Shear.NormalizedHeights | operational_analysis/toolkits/met_data_processing.py:155-156 | one normalised height per sensor, with normalised height times reference height = sensor height |
| Shear.NormalizedCell | operational_analysis/toolkits/met_data_processing.py:154 | a normalised speed is present exactly when the speed and the row's reference speed are, and then normalised speed times reference speed = speed |
| Shear.CountPresent | operational_analysis/toolkits/met_data_processing.py:172 | the number of present cells is at most the number of cells |
| Shear.CountPresentExtremes | operational_analysis/toolkits/met_data_processing.py:170-172 | the count is zero exactly when every cell is missing, and equals the length exactly when every cell is present |
| Shear.Survivors | operational_analysis/toolkits/met_data_processing.py:166-171 | the dropped-missing pair list has one entry per present cell, in sensor order (InSensorOrder: the pair of the present cell at index k is at position "number of present cells before k"); it holds nothing else |
| Shear.FitRows | operational_analysis/toolkits/met_data_processing.py:161-175 | the loop that starts from an all-missing column returns one cell per row, each equal to the row policy applied to that row alone |
| Shear.ComputeShear | operational_analysis/toolkits/met_data_processing.py:135-177 | the dispatch returns exactly `Shear.Shear`, the specification function of the whole call: too few heights, a missing column, a reference without height, a zero reference height, the two-height log law, or the per-row fit; the properties of `Shear.Shear` are TooFewHeightsExactly, TwoHeightsUseLogLaw and MultiHeightOutcome below |
| Shear.TooFewHeightsExactly | operational_analysis/toolkits/met_data_processing.py:138-139 | the call fails for want of heights if and only if the height map has at most one entry |
| Shear.TwoHeightsUseLogLaw | operational_analysis/toolkits/met_data_processing.py:140-146 | with two entries, the call fails if and only if one of the two columns is absent; otherwise each row is the log-law exponent of the first and second map entries, missing exactly when one speed is |
| Shear.CountPresentNormalized | operational_analysis/toolkits/met_data_processing.py:154 | after normalisation a row has as many present cells as before if its reference speed is present, and none otherwise |
| Shear.MultiHeightRowPolicy | operational_analysis/toolkits/met_data_processing.py:169-175 | a row whose reference speed is missing stays missing; otherwise a row stays missing if and only if at most one speed is present; any other row is exactly the fitter's value on its surviving pairs |
| Shear.RowShearIsRowLocal | operational_analysis/toolkits/met_data_processing.py:164-175 | two inputs that agree on a row's speeds and reference speed agree on that row's exponent |
| Shear.ReferenceHeightIsOne | operational_analysis/toolkits/met_data_processing.py:155-156 | the reference sensor's normalised height is 1 |
| Shear.MultiHeightOutcome | operational_analysis/toolkits/met_data_processing.py:154-177 | with more than two entries: a missing-column error if and only if a sensor or reference column is absent; a reference-height error if and only if all columns exist but the reference has no map entry; a zero-reference-height error if and only if all columns exist and the reference entry's height is 0; success if and only if all columns exist and the reference entry's height is non-zero, and then one exponent per row by the row policy, with heights normalised so that the reference height is 1 |

## Left out

- Floating point: IEEE rounding, NaN and infinity are not modelled. Numbers are exact reals. A missing value exists only as a `Cell` in the shear estimator. The negativity checks' treatment of NaN (NaN passes them) is not modelled.
- Transcendental functions (`arctan2`, `sin`, `cos`, `exp`, `log`, `np.power(x, 1/3)`, `np.round(x, 10)`) are parameters with no fixed meaning. The one fact a lemma needs is stated as its `requires`.
- `scipy.optimize.curve_fit` is a parameter from the surviving pairs to one exponent. Its convergence behaviour is not modelled, including the error it raises when it does not converge, and so is which exponent it returns.
- Column lookup by name: `compute_air_density`, `air_density_adjusted_wind_speed`, `compute_turbulence_intensity` and `compute_veer` read their columns from the data frame by name and raise `KeyError` when one is absent. The model passes those columns to them directly, so that error is not modelled for them; lookup by name is modelled only for the shear estimator.
- pandas mechanics: index alignment of Series with different indexes, `.loc`, `.rename`, `.reset_index` and the data-frame result type are not modelled. Aligned columns are sequences of equal length. `alpha` is a sequence of cells. Two sensors with equal normalised heights would collide as column labels in pandas; that artefact is not modelled either.
- Heights passed as strings and converted by `float(...)` (lines 135, 194-195) are reals from the start.
- `pressure_vertical_extrapolation` accepts scalar or column heights z0 and z1. The model takes columns, and a scalar is the constant column.
- The round trip from speed and direction to (u, v) and back is not stated: it needs facts about `atan2` and the trigonometric functions beyond their ranges.
- Thermodynamics.ComputeAirDensity: when no temperature or pressure is negative, requires every temperature to be non-zero, because the source then divides by zero (an infinite or NaN density) and that is outside the model. Inputs with a negative value are rejected before any division and are not constrained.
- Thermodynamics.PressureVerticalExtrapolation: when no p0 or mean temperature is negative, requires every mean temperature to be non-zero, for the same reason. Inputs that the negativity check rejects are not constrained.
- WindRatios.AirDensityAdjustedWindSpeed: requires a non-zero mean density for a non-empty column, because a zero mean divides by zero in the source. The pandas mean skipping NaN rows is not modelled.
- WindRatios.ComputeTurbulenceIntensity: requires every mean speed to be non-zero. The source lets division by a zero mean produce infinity or NaN, which the model does not represent.
- Veer.ComputeVeer: requires the two heights to differ, because equal heights divide by zero in the source.
- Shear.ComputeShear: with two sensors whose columns are both present, requires distinct log heights. With more sensors, every named column present and a non-zero height entry for the reference column, it requires non-zero present reference speeds. Where the reference has no height entry or a zero one, the source raises at line 155 or 156 after its division, and the model returns the matching error without this requirement. Each of these is an element-wise pandas division by zero in the source (infinity or NaN), which the model does not represent. Inputs that fail a column lookup first are not constrained. It also requires distinct column names in the height map, which a Python dictionary guarantees.
