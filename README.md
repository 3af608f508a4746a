# lst_mapper core in Dafny

A model of the computational core of lst_mapper, an urban-heat-island
monitor. It takes one Landsat Collection 2 Level 2 scene and derives:

- **Land Surface Temperature (LST).** The thermal band `lwir11` is scaled to
  Kelvin, then converted to degrees Celsius. Cells at or below -100 °C are
  masked.
- **NDVI.** The `nir08` and `red` bands are scaled to surface reflectance.
  The index is `(nir - red) / (nir + red + 1e-6)`. Values outside the open
  interval (-1, 1) are masked, not clamped.
- **Image frames.** For each raster, the Leaflet bounds and the colour-scale
  range that the PNG generators would use.
- **Summaries.** Min, max, mean, median, std, p25 and p75 of the valid cells,
  computed numpy-style.
- **Correlation.** The Pearson correlation between LST and NDVI over the
  pixels that are valid in both.
- **UHI magnitude.** `uhi_magnitude`, which is LST max minus LST min.

Beside these it models the pure parts of the geocoding helpers:

- the box around a point;
- the reordering of Nominatim's bounding box;
- the assembly of a display name from address parts;
- the records that `search_locations`, `reverse_geocode` and
  `get_city_coordinates` build from a geocoder answer.

Modelling choices:

- **Cells.** A cell is `Option<real>`, with `None` standing for NaN. Exact
  rationals stand in for float32.
- **Digital numbers.** DNs are unbounded integers.
- **Square root.** `sqrt` is a function parameter constrained by `IsSqrt`:
  it is non-negative, squares back to its argument, and maps 0 to 0.
- **Degenerate correlation.** A Pearson coefficient over a constant series is
  `None`, which is numpy's NaN.
- **Geocoder input.** The geocoder's answer and `cos(lat)` enter as
  parameters.

Modules, one per file:

| module | file | models |
|---|---|---|
| `Wrappers` | wrappers.dfy | `Option` (NaN, "nothing found") and `Result` (raised errors) |
| `Grids` | grids.dfy | 2-D grids, elementwise maps, row-major flattening |
| `BandAlgebra` | band_algebra.dfy | `calculate_lst`, `calculate_ndvi` |
| `RasterStatistics` | statistics.dfy | `calculate_statistics`, numpy percentiles/median/std, `lst_ndvi_correlation` |
| `Renderer` | renderer.dfy | the bounds and `vmin`/`vmax` of `generate_lst_image` and `generate_ndvi_image` |
| `Analysis` | analysis.dfy | the `/analyze` handler's pipeline and `uhi_magnitude` |
| `GeoUtils` | geo.dfy | `get_city_bbox`, the pure parts of `search_locations` and `reverse_geocode`, `get_city_coordinates` |

Two behaviours of the code that are easy to overlook:

- **Coordinate fallback.** With no recognised coordinate vectors, the
  generators do not raise: they use the unit box `[[0, 0], [1, 1]]`.
  `Renderer.FallbackBounds` states this.
- **Sample temperatures.** With the scale 0.003418 and the offset 149.0, DNs
  10000, 20000 and 30000 give -89.97, -55.79 and -21.61 °C, and DN 0 gives
  -124.15 °C, which is masked. `BandAlgebra.LstSampleValues` proves these
  values.

## Model

| member | source | states |
|---|---|---|
| BandAlgebra.Celsius | src/processor.py:28-29 | no contract of its own: `LstStrictlyIncreasing` (strictly increasing in the DN), `LstKeptIffDnAtLeast7066` (above -100 exactly from DN 7066) and `LstSampleValues` (DN 0 is -124.15) state what it computes |
| BandAlgebra.LstCell | src/processor.py:28-33 | a kept cell equals `dn*0.003418 + 149.0 - 273.15` and is strictly above -100; a masked cell's Celsius value is at most -100 |
| BandAlgebra.LstKeptIffDnAtLeast7066 | src/processor.py:28-33 | a DN is kept exactly when it is at least 7066, so DN 0 is always masked |
| BandAlgebra.LstStrictlyIncreasing | src/processor.py:28-33 | Celsius is strictly increasing in the DN, and a kept DN stays kept (with a larger value) for any larger DN |
| BandAlgebra.LstSampleValues | src/processor.py:28-33 | DNs 0/10000/20000/30000 give -124.15 (masked), -89.97, -55.79, -21.61 °C |
| BandAlgebra.Reflectance | src/processor.py:49-50 | no contract of its own: `NdviDenominatorNonZero` (the sum of two reflectances plus 1e-6 is never zero) and `NdviEqualBandsIsZero` state what follows from it |
| BandAlgebra.NdviRatio | src/processor.py:53 | no contract of its own: `NdviDenominatorNonZero` shows its division is always defined; `NdviCell`, `NdviEqualBandsIsZero` and `NdviOutOfRangeIsMasked` state its values |
| BandAlgebra.NdviDenominatorNonZero | src/processor.py:49-53 | for all integer DNs `nir + red + 1e-6` (in reflectance) is never zero |
| BandAlgebra.NdviCell | src/processor.py:53-57 | a cell is present exactly when the ratio lies strictly inside (-1, 1), and then equals the unclamped ratio |
| BandAlgebra.NdviEqualBandsIsZero | src/processor.py:49-57 | equal NIR and red DNs give NDVI exactly 0, not masked |
| BandAlgebra.NdviOutOfRangeIsMasked | src/processor.py:53-57 | NIR 10000, red 0 gives a ratio below -1, and the cell is masked rather than clamped |
| BandAlgebra.CalculateLst | src/processor.py:15-35 | fails (listing `lwir11`) exactly when the thermal band is missing; otherwise every cell is the LST of its DN, same shape, coordinates kept |
| BandAlgebra.CalculateNdvi | src/processor.py:38-59 | fails (listing `nir08`, `red`) exactly when either band is missing; otherwise every cell is the NDVI of its DN pair, same shape, coordinates kept |
| BandAlgebra.LstCellsAboveFloor | src/processor.py:25-33 | every present LST cell of a scene is above -100; a cell with DN 0 is missing |
| BandAlgebra.NdviCellsInOpenInterval | src/processor.py:49-57 | every present NDVI cell of a scene lies in (-1, 1); equal DNs give 0 |
| BandAlgebra.DerivedRastersAligned | src/processor.py:15-59 | the LST and NDVI rasters of one aligned scene have the same shape |
| RasterStatistics.ValidValues | src/processor.py:226-227 | the valid values are never more than the cells |
| RasterStatistics.ValidValuesMembers | src/processor.py:226-227 | a value is among the valid values exactly when some cell holds it |
| RasterStatistics.ValidValuesAppend | src/processor.py:226-227 | filtering distributes over concatenation (row-major order kept) |
| RasterStatistics.MissingCellIgnored | src/processor.py:226-227 | inserting a NaN cell anywhere leaves the valid values unchanged |
| RasterStatistics.Min | src/processor.py:241 | the minimum is one of the values and no value is below it |
| RasterStatistics.Max | src/processor.py:242 | the maximum is one of the values and no value is above it |
| RasterStatistics.Mean | src/processor.py:243 | no contract of its own: `MeanBetween` and `MeanBetweenMinMax` bound it by the values |
| RasterStatistics.MeanBetween | src/processor.py:243 | the mean of values lying in [lo, hi] lies in [lo, hi] |
| RasterStatistics.MeanBetweenMinMax | src/processor.py:241-243 | min <= mean <= max |
| RasterStatistics.Variance | src/processor.py:245 | no contract of its own: `VarianceNonNegative`, `ConstantHasZeroVariance` and `SummaryStdSquared` (std squared is the variance) state its meaning |
| RasterStatistics.VarianceNonNegative | src/processor.py:245 | the population variance is never negative |
| RasterStatistics.ConstantHasZeroVariance | src/processor.py:281 | a series whose values are all equal has variance 0 |
| RasterStatistics.SquareZero | src/processor.py:245 | a square is never negative and is zero only at zero |
| RasterStatistics.SumOfSquaresZero | src/processor.py:245 | when the squared deviations from m sum to zero, every value equals m |
| RasterStatistics.NonConstantHasPositiveVariance | src/processor.py:245 | a series holding two different values has a strictly positive variance |
| RasterStatistics.VarianceZeroIff | src/processor.py:245 | the variance is zero exactly when every value equals the first (both directions) |
| RasterStatistics.SumOfProductsSymmetric | src/processor.py:281 | the co-moment sum is symmetric in its two series |
| RasterStatistics.Covariance | src/processor.py:281 | no contract of its own: `CovarianceSymmetric` and, through `Variance`, `VarianceNonNegative` state its meaning |
| RasterStatistics.CovarianceSymmetric | src/processor.py:281 | the covariance of x and y equals that of y and x |
| RasterStatistics.Insert | src/processor.py:244-247 | inserting into a sorted sequence keeps it sorted and adds exactly the one element (multiset), the head being the smaller of the new value and the old head |
| RasterStatistics.SortAsc | src/processor.py:244-247 | the sorted copy numpy works on is sorted, a permutation, same length |
| RasterStatistics.SortedEnds | src/processor.py:241-247 | the sorted copy starts with the minimum and ends with the maximum |
| RasterStatistics.ScaledRank | src/processor.py:246-247 | the linear-interpolation rank `(n-1)*p/100` never passes the last index |
| RasterStatistics.Percentile | src/processor.py:246-247 | no contract of its own (numpy's linear interpolation at rank `(n-1)*p/100`): `PercentileBetween`, `PercentileMonotone`, `PercentileEnds` and `MedianIsPercentile50` state its meaning |
| RasterStatistics.RankIndex | src/processor.py:246-247 | the integer part of the rank is a valid index |
| RasterStatistics.RankFraction | src/processor.py:246-247 | the fractional part of the rank lies in [0, 1) |
| RasterStatistics.RankMonotone | src/processor.py:246-247 | a higher percent gives a later rank index, or the same index with a fraction at least as large |
| RasterStatistics.PercentileBetween | src/processor.py:246-247 | on sorted data a percentile lies between the sorted value at its rank index and the next one, and between the first and last |
| RasterStatistics.PercentileMonotone | src/processor.py:246-247 | on sorted data a higher percent never gives a lower percentile |
| RasterStatistics.PercentileEnds | src/processor.py:246-247 | percentile 0 is the first and percentile 100 the last sorted value |
| RasterStatistics.Median | src/processor.py:244 | no contract of its own: `MedianIsPercentile50` ties it to the 50th percentile, and so `SummaryOrdered` places it between p25 and p75 |
| RasterStatistics.MedianIsPercentile50 | src/processor.py:244 | the median (middle, or mean of the two middles) equals percentile 50 |
| RasterStatistics.SummaryOrdered | src/processor.py:240-248 | min <= p25 <= median <= p75 <= max |
| RasterStatistics.Summarize | src/processor.py:225-250 | all seven fields 0 when no cell is valid; otherwise each field is its statistic of the valid values (std is the root of the population variance), min <= p25 <= median <= p75 <= max, min <= mean <= max, std >= 0 |
| RasterStatistics.SummaryStdSquared | src/processor.py:245 | the summary's std is non-negative and its square is the variance of the valid values |
| RasterStatistics.SummaryIgnoresMissing | src/processor.py:225-227 | inserting a NaN cell anywhere changes no field of the summary |
| RasterStatistics.PairMask | src/processor.py:273 | index i is kept exactly when both cells i are valid |
| RasterStatistics.PairMaskSymmetric | src/processor.py:273 | the mask does not depend on the order of the two series |
| RasterStatistics.Select | src/processor.py:274-275 | the selection is exactly the values of the kept cells in order (the valid values of the series with unkept cells blanked), one per kept index, so both paired sequences are equally long |
| RasterStatistics.MaskCells | src/processor.py:273-275 | same length; cell i is kept where the mask holds and missing elsewhere |
| RasterStatistics.SelectAllValid | src/processor.py:273-275 | masking a series by its own validity selects exactly its valid values, in order |
| RasterStatistics.Clip | src/processor.py:281-282 | the result lies in the range and is the input itself when that already does |
| RasterStatistics.Coefficient | src/processor.py:281-282 | the covariance over the product of two positive standard deviations, clipped, always lies in [-1, 1] |
| RasterStatistics.CoefficientSelf | src/processor.py:281-282 | a variance over its own root taken twice gives exactly 1 |
| RasterStatistics.Pearson | src/processor.py:281-282 | NaN exactly when either series has zero variance; otherwise the covariance over the product of the two standard deviations (both positive), clipped, so within [-1, 1] |
| RasterStatistics.PearsonSymmetric | src/processor.py:281-282 | the coefficient is symmetric in its arguments |
| RasterStatistics.PearsonNaNIffConstant | src/processor.py:281-282 | the coefficient is NaN exactly when one of the two series is constant |
| RasterStatistics.PearsonSelf | src/processor.py:281-282 | a series holding two different values correlates with itself at exactly 1 |
| RasterStatistics.Correlate | src/processor.py:268-284 | 0.0 when fewer than 2 pairs are valid in both; otherwise the Pearson coefficient of the paired values, within [-1, 1] |
| RasterStatistics.CorrelateSymmetric | src/processor.py:268-284 | swapping the two series does not change the result |
| RasterStatistics.CorrelateSelf | src/processor.py:268-284 | a series two of whose valid cells hold different values correlates with itself at 1 |
| Renderer.CoordinateAxes | src/processor.py:86-102 | `longitude`/`latitude` if both exist, else `x`/`y` if both exist, else `[0, 1]` for both |
| Renderer.ImageBounds | src/processor.py:104-108 | fails exactly when a chosen vector is empty; otherwise south-west is (min lat, min lon) and north-east (max lat, max lon), each a member and bound of its vector |
| Renderer.BoundsOrdered | src/processor.py:104-108 | minLat <= maxLat and minLon <= maxLon |
| Renderer.FallbackBounds | src/processor.py:98-108 | with no recognised coordinates the bounds are the unit box |
| Renderer.ExampleBounds | src/processor.py:86-108 | latitudes [10, 11] and longitudes [20, 21] give [[10, 20], [11, 21]] |
| Renderer.LstRange | src/processor.py:117-118 | NaN exactly when no cell is valid; otherwise the 2nd and 98th percentiles, with first value <= vmin <= vmax <= last value |
| Renderer.LstImageFrame | src/processor.py:79-118 | fails exactly when the bounds fail; otherwise those bounds and the percentile range, vmin <= vmax |
| Renderer.NdviImageFrame | src/processor.py:160-192 | fails exactly when the bounds fail; otherwise those bounds and the fixed range -0.2..0.8 whatever the data |
| Renderer.GeneratorsAgreeOnBounds | src/processor.py:164-180 | for the same coordinates both generators succeed or fail together and give identical bounds |
| Grids.Flatten | src/processor.py:226 | no contract of its own: `FlattenContains`, `FlattenAll`, `FlattenSize` and `FlattenSameLength` state its meaning |
| Grids.FlattenContains | src/processor.py:269-270 | every cell of a grid appears in its flattening |
| Grids.FlattenSize | src/processor.py:226 | a rows x cols grid flattens to rows * cols cells |
| Grids.FlattenSameLength | src/processor.py:269-270 | equally shaped grids flatten to equally long sequences |
| Grids.FlattenAll | src/processor.py:226 | a property of every cell holds of every element of the flattening |
| Analysis.UhiMagnitude | flask_app.py:258 | no contract of its own: `UhiMagnitudeNonNegative` states it is never negative, and `Analyze` that the response carries it |
| Analysis.CalculateStatistics | src/processor.py:212-250 | all zero when no flattened cell is valid; always min <= p25 <= median <= p75 <= max, min <= mean <= max and std >= 0 |
| Analysis.UhiMagnitudeNonNegative | flask_app.py:258 | `max - min` of an LST summary is never negative and is 0 without valid cells |
| Analysis.SummaryAbove | src/processor.py:240-241 | if every valid value exceeds a bound, so does the summary's minimum |
| Analysis.SummaryBelow | src/processor.py:240-242 | if every valid value is below a bound, so is the summary's maximum |
| Analysis.LstSummaryAboveFloor | src/processor.py:226-241 | the LST summary's minimum is above -100 whenever any cell is valid |
| Analysis.NdviSummaryInsideUnit | src/processor.py:226-242 | the NDVI summary's min and max lie in (-1, 1) whenever any cell is valid |
| Analysis.LstNdviCorrelation | src/processor.py:268-284 | the two rasters flatten to equally long series and the result is their `Correlate`: 0.0 with fewer than two pairs valid in both, otherwise in [-1, 1] when not NaN |
| Analysis.LstNdviCorrelationSymmetric | src/processor.py:268-284 | swapping LST and NDVI does not change the correlation |
| Analysis.Analyze | flask_app.py:222-258 | a missing thermal band fails first, then missing NIR/red; success exactly when both bands and the bounds succeed; then the frames are the LST and NDVI image frames, the two summaries `CalculateStatistics` of the two rasters, the correlation `LstNdviCorrelation` of them and the magnitude `UhiMagnitude` of the LST summary; both frames share the bounds, NDVI range fixed, uhi >= 0, correlation in [-1, 1], means within min..max |
| GeoUtils.CityBbox | src/utils.py:106-119 | the point is exactly the box's midpoint; the latitude extent is `2b/111` and the longitude extent `2b/(111 cos lat)`; for b >= 0 the point lies inside |
| GeoUtils.FromNominatimOrder | src/utils.py:56-59 | succeeds exactly on four values; min_lat, max_lat, min_lon, max_lon land in their named fields |
| GeoUtils.NominatimRoundTrip | src/utils.py:57-59 | reordering and writing back are inverse in both directions |
| GeoUtils.NominatimPermutation | src/utils.py:57-59 | the box holds exactly the raw list's values (same multiset) |
| GeoUtils.SearchBbox | src/utils.py:53-62 | an absent or empty raw box gives the box around the hit; otherwise the reordered raw box |
| GeoUtils.PresentValues | src/utils.py:69-71 | never more parts than keys; `PresentValuesEmpty`, `PresentValuesAppend` and `CollectNameParts` state which parts and in what order |
| GeoUtils.PresentValuesAppend | src/utils.py:66-71 | the parts found for a concatenated key list are the concatenated parts |
| GeoUtils.PresentValuesEmpty | src/utils.py:66-71 | no part is found exactly when no key is in the address |
| GeoUtils.CollectNameParts | src/utils.py:66-71 | the loop appends the values of the present keys, in key order |
| GeoUtils.Join | src/utils.py:73 | the joined text starts with the first part and ends with the last |
| GeoUtils.BeforeFirstComma | src/utils.py:73 | the result is a comma-free prefix, followed by a comma when shorter than the text |
| GeoUtils.SearchName | src/utils.py:73 | no contract of its own: `SearchNameFallback` and `SearchNamePrefersParts` state both branches |
| GeoUtils.SearchNameFallback | src/utils.py:73 | with none of city/town/village/state/country present, the name is the text before the first comma |
| GeoUtils.SearchNamePrefersParts | src/utils.py:73 | with any name key present, the name is the ", "-join of the present parts and ignores the full address |
| GeoUtils.ReverseName | src/utils.py:158 | no contract of its own: `ReverseNameFallback`, `ReverseNameUsesLeadingParts` and `ReverseNameKeepsThree` state both branches |
| GeoUtils.PresentValuesCons | src/utils.py:154-156 | the parts for a key list starting with k are k's value, if present, before the parts for the rest |
| GeoUtils.JoinCons | src/utils.py:158 | joining a part before a non-empty list puts the separator between it and the join of the rest |
| GeoUtils.JoinThree | src/utils.py:158 | three parts join to `a + sep + b + sep + c` |
| GeoUtils.ReverseNamePartsCityCountyState | src/utils.py:154-156 | with city, county and state present and no town or village, the present parts start with city, county, state, followed only by the country if present |
| GeoUtils.ReverseNameKeepsThree | src/utils.py:154-158 | city, county and state present (no town, village) give "city, county, state"; a country is dropped |
| GeoUtils.ReverseNameFallback | src/utils.py:158 | none of the six keys is present exactly when no part is found and the name is the "Location (lat, lon)" text (a present key whose value happens to be that text gives the same name) |
| GeoUtils.ReverseNameUsesLeadingParts | src/utils.py:158 | with n present parts the name joins exactly the first min(3, n) of them |
| GeoUtils.SearchLocations | src/utils.py:44-81 | nothing found, or a raw box that does not unpack, gives None; otherwise the record of name, coordinates, box and full address |
| GeoUtils.ReverseGeocode | src/utils.py:140-166 | None exactly when nothing is found; otherwise the reverse name, the given point, the box around it and the full address |
| GeoUtils.GetCityCoordinates | src/utils.py:8-19 | searches with the default 15 km buffer: (None, None) when nothing is found or the raw box does not unpack, otherwise the search box and the hit's (lat, lon); without a raw box, the box 30/111 degrees of latitude tall |
| GeoUtils.CityCoordinates | src/utils.py:14-19 | (bbox, (lat, lon)) of a found record, (None, None) otherwise |

## Left out

- **Drawing.** Figure creation, colour maps, bilinear interpolation, PNG
  saving and base64 encoding are drawing through foreign libraries. Only the
  bounds and the `vmin`/`vmax` data are modelled.
- **float32 and float64 rounding.** Values are exact reals, so the mask
  thresholds are exact comparisons.
- **The square root.** `sqrt` is any function satisfying `IsSqrt`, not an
  IEEE square root.
- **numpy's `corrcoef`.** It divides by `n-1` twice, which cancels.
  `Covariance` and `Variance` use `n` throughout.
- **Logging.** All `print` output is left out.
- **xarray metadata.** Coordinates are explicit named vectors beside the
  grid. Dimension names are not modelled, and neither is selecting the first
  `time` slice in the handler. `Scene` is a single time step.
- **Alignment by dimension name.** The bands come from one xarray Dataset,
  so they share dimensions and sizes, and LST and NDVI derived from one scene
  share them too. xarray's alignment by dimension name is not modelled: the
  model states the shared shape as `Scene.Aligned` and `SameShape`, and
  `DerivedRastersAligned` proves the derived rasters keep it.
- **Percentile arguments.** Only integer percent values are modelled, which
  covers every call in the code: 2, 25, 50, 75 and 98.
- **Network calls.** The Nominatim calls, the STAC catalog search and the
  data loading are left out. The geocoder's answer is a parameter.
- **Exception catch-alls.** The blanket handlers return None or HTTP 500.
  The model keeps only the error cases the core raises: missing bands, empty
  coordinates, and a raw box that does not unpack.
- **String parsing of the raw box.** `float(x)` of the raw bounding-box
  strings is not modelled. The raw box arrives as reals.
- **Trigonometry.** `np.cos(np.radians(lat))` is the positive parameter
  `cosLat`.
- **Number formatting.** The `:.4f` formatting in the reverse fallback name
  is not modelled. The formatted latitude and longitude texts are
  parameters.
- **The HTTP layer.** The Flask routes, request validation, JSON shaping,
  HTTP status codes, the Streamlit UI and the data loader are not part of
  this model.
- **Default buffers.** `get_city_bbox`, `search_locations` and
  `reverse_geocode` default `buffer_km` to 15 (`DefaultBufferKm`); the model
  passes the buffer explicitly, and `GetCityCoordinates` uses the default.
