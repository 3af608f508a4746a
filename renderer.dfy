/** The data half of `generate_lst_image` and `generate_ndvi_image` in
    `src/processor.py`: which coordinate vectors are used, the Leaflet bounds
    derived from them, and the colour scale's value range. The drawing itself
    (figure, colour map, PNG, base64) is not modelled. */
module Renderer {
  import opened Wrappers
  import opened BandAlgebra
  import opened Grids
  import opened RasterStatistics

  /** One corner of a Leaflet bounds pair, written `[lat, lon]`. */
  datatype LatLon = LatLon(lat: real, lon: real)

  /** `[[minLat, minLon], [maxLat, maxLon]]`. */
  datatype Bounds = Bounds(southWest: LatLon, northEast: LatLon)

  /** The `vmin`/`vmax` handed to the colour map. */
  datatype DisplayRange = DisplayRange(vmin: real, vmax: real)

  /** What the image generators compute besides the picture: its bounds and
      its value range; `None` is the NaN range numpy gives a raster with no
      valid cell. */
  datatype ImageFrame = ImageFrame(bounds: Bounds, range: Option<DisplayRange>)

  /** numpy's `min()` of an empty coordinate vector raises ValueError. */
  datatype RenderError = EmptyCoordinates

  /** The vectors used when no recognised coordinates are attached. */
  const FallbackAxis: seq<real> := [0.0, 1.0]

  // The fixed NDVI colour range and the LST clipping percentiles.
  const NdviRange := DisplayRange(-0.2, 0.8)
  const LstLowPercent: nat := 2
  const LstHighPercent: nat := 98

  /** The (longitude, latitude) vectors: `longitude`/`latitude` when both are
      attached, else `x` (longitude) and `y` (latitude) when both are, else the
      [0, 1] fallback for both axes. */
  function CoordinateAxes(coords: map<string, seq<real>>): (axes: (seq<real>, seq<real>))
    ensures "longitude" in coords && "latitude" in coords ==>
      axes == (coords["longitude"], coords["latitude"])
    ensures !("longitude" in coords && "latitude" in coords) && "x" in coords && "y" in coords ==>
      axes == (coords["x"], coords["y"])
    ensures !("longitude" in coords && "latitude" in coords) && !("x" in coords && "y" in coords) ==>
      axes == (FallbackAxis, FallbackAxis)
  {
    if "longitude" in coords && "latitude" in coords then (coords["longitude"], coords["latitude"])
    else if "x" in coords && "y" in coords then (coords["x"], coords["y"])
    else (FallbackAxis, FallbackAxis)
  }

  /** Leaflet bounds of a raster: south-west corner (smallest latitude,
      smallest longitude) and north-east corner (largest of each), each taken
      from the chosen vectors; an error when either vector is empty. */
  function ImageBounds(coords: map<string, seq<real>>): (r: Result<Bounds, RenderError>)
    ensures var (lon, lat) := CoordinateAxes(coords);
      r.Err? <==> lon == [] || lat == []
    ensures r.Ok? ==>
      var (lon, lat) := CoordinateAxes(coords);
      var b := r.value;
      && b.southWest.lat in lat && b.northEast.lat in lat
      && b.southWest.lon in lon && b.northEast.lon in lon
      && (forall i :: 0 <= i < |lat| ==> b.southWest.lat <= lat[i] <= b.northEast.lat)
      && (forall i :: 0 <= i < |lon| ==> b.southWest.lon <= lon[i] <= b.northEast.lon)
  {
    var (lon, lat) := CoordinateAxes(coords);
    if lon == [] || lat == [] then Err(EmptyCoordinates)
    else Ok(Bounds(LatLon(Min(lat), Min(lon)), LatLon(Max(lat), Max(lon))))
  }

  /** The bounds are never inverted: south-west is below and left of north-east. */
  lemma BoundsOrdered(coords: map<string, seq<real>>)
    requires ImageBounds(coords).Ok?
    ensures ImageBounds(coords).value.southWest.lat <= ImageBounds(coords).value.northEast.lat
    ensures ImageBounds(coords).value.southWest.lon <= ImageBounds(coords).value.northEast.lon
  {
    var (lon, lat) := CoordinateAxes(coords);
    assert lat[0] in lat && lon[0] in lon;
  }

  /** A raster with no recognised coordinate names gets the unit box
      [[0, 0], [1, 1]]. */
  lemma FallbackBounds(coords: map<string, seq<real>>)
    requires !("longitude" in coords && "latitude" in coords) && !("x" in coords && "y" in coords)
    ensures ImageBounds(coords) == Ok(Bounds(LatLon(0.0, 0.0), LatLon(1.0, 1.0)))
  {
    assert Min(FallbackAxis) == 0.0 && Max(FallbackAxis) == 1.0;
  }

  /** The 2nd/98th percentile range of a raster's valid values; NaN (None)
      when it has none. */
  function LstRange(cells: Grid<Option<real>>): (r: Option<DisplayRange>)
    ensures r.None? <==> ValidValues(Flatten(cells)) == []
    ensures r.Some? ==>
      var vs := SortAsc(ValidValues(Flatten(cells)));
      && r.value.vmin == Percentile(vs, LstLowPercent) && r.value.vmax == Percentile(vs, LstHighPercent)
      && vs[0] <= r.value.vmin <= r.value.vmax <= vs[|vs| - 1]
  {
    var vs := SortAsc(ValidValues(Flatten(cells)));
    if vs == [] then None
    else
      PercentileMonotone(vs, LstLowPercent, LstHighPercent);
      PercentileBetween(vs, LstLowPercent);
      PercentileBetween(vs, LstHighPercent);
      Some(DisplayRange(Percentile(vs, LstLowPercent), Percentile(vs, LstHighPercent)))
  }

  /** generate_lst_image without the drawing: bounds first (which may fail),
      then the percentile range. */
  function LstImageFrame(lst: Raster): (r: Result<ImageFrame, RenderError>)
    ensures r.Err? <==> ImageBounds(lst.coords).Err?
    ensures r.Ok? ==> r.value.bounds == ImageBounds(lst.coords).value && r.value.range == LstRange(lst.cells)
    ensures r.Ok? && r.value.range.Some? ==> r.value.range.value.vmin <= r.value.range.value.vmax
  {
    var b := ImageBounds(lst.coords);
    if b.Err? then Err(b.error) else Ok(ImageFrame(b.value, LstRange(lst.cells)))
  }

  /** generate_ndvi_image without the drawing: the same bounds and the fixed
      range -0.2 .. 0.8, whatever the data. */
  function NdviImageFrame(ndvi: Raster): (r: Result<ImageFrame, RenderError>)
    ensures r.Err? <==> ImageBounds(ndvi.coords).Err?
    ensures r.Ok? ==> r.value.range == Some(DisplayRange(-0.2, 0.8))
    ensures r.Ok? ==> r.value.bounds == ImageBounds(ndvi.coords).value
  {
    var b := ImageBounds(ndvi.coords);
    if b.Err? then Err(b.error) else Ok(ImageFrame(b.value, Some(NdviRange)))
  }

  /** Both generators give the same bounds for the same coordinates, and both
      fail together. */
  lemma GeneratorsAgreeOnBounds(lst: Raster, ndvi: Raster)
    requires lst.coords == ndvi.coords
    ensures LstImageFrame(lst).Ok? <==> NdviImageFrame(ndvi).Ok?
    ensures LstImageFrame(lst).Ok? ==> LstImageFrame(lst).value.bounds == NdviImageFrame(ndvi).value.bounds
  {
  }

  /** The bounds of the example grid with latitudes [10, 11] and longitudes
      [20, 21] are [[10, 20], [11, 21]]. */
  lemma ExampleBounds()
    ensures ImageBounds(map["latitude" := [10.0, 11.0], "longitude" := [20.0, 21.0]])
         == Ok(Bounds(LatLon(10.0, 20.0), LatLon(11.0, 21.0)))
  {
    var coords := map["latitude" := [10.0, 11.0], "longitude" := [20.0, 21.0]];
    assert CoordinateAxes(coords) == ([20.0, 21.0], [10.0, 11.0]);
    assert Min([10.0, 11.0]) == 10.0 && Max([10.0, 11.0]) == 11.0;
    assert Min([20.0, 21.0]) == 20.0 && Max([20.0, 21.0]) == 21.0;
  }
}
