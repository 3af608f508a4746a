/** The analysis step of the HTTP handler in `flask_app.py`: LST, then NDVI,
    then both image frames, both summaries, the correlation and the urban heat
    island magnitude, assembled into one record; any failure aborts it. */
module Analysis {
  import opened Wrappers
  import opened Grids
  import opened BandAlgebra
  import opened RasterStatistics
  import opened Renderer

  datatype AnalysisResult = AnalysisResult(
    lstFrame: ImageFrame, lstStats: StatSummary,
    ndviFrame: ImageFrame, ndviStats: StatSummary,
    correlation: Option<real>, uhiMagnitude: real)

  datatype AnalysisError = BandFailure(band: BandError) | RenderFailure(render: RenderError)

  /** `uhi_magnitude = max - min` of the LST summary. */
  function UhiMagnitude(lstStats: StatSummary): real
  {
    lstStats.max - lstStats.min
  }

  /** The magnitude of a summary is never negative, and it is 0 when the
      raster had no valid cell. */
  lemma UhiMagnitudeNonNegative(cells: seq<Option<real>>, sqrt: real -> real)
    requires IsSqrt(sqrt)
    ensures UhiMagnitude(Summarize(cells, sqrt)) >= 0.0
    ensures ValidValues(cells) == [] ==> UhiMagnitude(Summarize(cells, sqrt)) == 0.0
  {
  }

  /** calculate_statistics on a raster: the summary of its flattened cells,
      all zero when no cell is valid, ordered min <= p25 <= median <= p75 <= max
      with the mean between min and max otherwise. */
  function CalculateStatistics(r: Raster, sqrt: real -> real): (st: StatSummary)
    requires IsSqrt(sqrt)
    ensures ValidValues(Flatten(r.cells)) == [] ==> st == AllZero
    ensures st.min <= st.p25 <= st.median <= st.p75 <= st.max
    ensures st.min <= st.mean <= st.max && st.std >= 0.0
  {
    Summarize(Flatten(r.cells), sqrt)
  }

  /** A summary of cells whose valid values all exceed `lo` has a minimum above `lo`. */
  lemma SummaryAbove(cells: seq<Option<real>>, lo: real, sqrt: real -> real)
    requires IsSqrt(sqrt) && ValidValues(cells) != []
    requires forall c :: c in cells && c.Some? ==> lo < c.value
    ensures lo < Summarize(cells, sqrt).min
  {
    var vs := ValidValues(cells);
    ValidValuesMembers(cells, Min(vs));
  }

  /** A summary of cells whose valid values all lie below `hi` has a maximum below `hi`. */
  lemma SummaryBelow(cells: seq<Option<real>>, hi: real, sqrt: real -> real)
    requires IsSqrt(sqrt) && ValidValues(cells) != []
    requires forall c :: c in cells && c.Some? ==> c.value < hi
    ensures Summarize(cells, sqrt).max < hi
  {
    var vs := ValidValues(cells);
    ValidValuesMembers(cells, Max(vs));
  }

  /** The LST summary of a scene with any valid pixel has its minimum above
      -100 degrees Celsius. */
  lemma LstSummaryAboveFloor(scene: Scene, sqrt: real -> real)
    requires IsSqrt(sqrt) && CalculateLst(scene).Ok?
    requires ValidValues(Flatten(CalculateLst(scene).value.cells)) != []
    ensures CalculateStatistics(CalculateLst(scene).value, sqrt).min > LstFloor
  {
    var g := CalculateLst(scene).value.cells;
    FlattenAll(g, (c: Option<real>) => c.Some? ==> c.value > LstFloor);
    SummaryAbove(Flatten(g), LstFloor, sqrt);
  }

  /** The NDVI summary of a scene with any valid pixel lies inside (-1, 1). */
  lemma NdviSummaryInsideUnit(scene: Scene, sqrt: real -> real)
    requires IsSqrt(sqrt) && scene.Aligned() && CalculateNdvi(scene).Ok?
    requires ValidValues(Flatten(CalculateNdvi(scene).value.cells)) != []
    ensures -1.0 < CalculateStatistics(CalculateNdvi(scene).value, sqrt).min
    ensures CalculateStatistics(CalculateNdvi(scene).value, sqrt).max < 1.0
  {
    var g := CalculateNdvi(scene).value.cells;
    FlattenAll(g, (c: Option<real>) => c.Some? ==> -1.0 < c.value < 1.0);
    SummaryAbove(Flatten(g), -1.0, sqrt);
    SummaryBelow(Flatten(g), 1.0, sqrt);
  }

  /** lst_ndvi_correlation on two rasters of one grid: the correlation of
      their flattened cells, which is 0.0 when fewer than two pixels are valid
      in both, and otherwise lies in [-1, 1] unless it is NaN. */
  function LstNdviCorrelation(lst: Raster, ndvi: Raster, sqrt: real -> real): (r: Option<real>)
    requires IsSqrt(sqrt) && SameShape(lst.cells, ndvi.cells)
    ensures |Flatten(lst.cells)| == |Flatten(ndvi.cells)|
    ensures r == Correlate(Flatten(lst.cells), Flatten(ndvi.cells), sqrt)
    ensures CountTrue(PairMask(Flatten(lst.cells), Flatten(ndvi.cells))) < 2 ==> r == Some(0.0)
    ensures r.Some? ==> -1.0 <= r.value <= 1.0
  {
    FlattenSameLength(lst.cells, ndvi.cells);
    Correlate(Flatten(lst.cells), Flatten(ndvi.cells), sqrt)
  }

  /** Swapping the two rasters does not change the coefficient. */
  lemma LstNdviCorrelationSymmetric(lst: Raster, ndvi: Raster, sqrt: real -> real)
    requires IsSqrt(sqrt) && SameShape(lst.cells, ndvi.cells)
    ensures SameShape(ndvi.cells, lst.cells)
    ensures LstNdviCorrelation(lst, ndvi, sqrt) == LstNdviCorrelation(ndvi, lst, sqrt)
  {
    FlattenSameLength(lst.cells, ndvi.cells);
    CorrelateSymmetric(Flatten(lst.cells), Flatten(ndvi.cells), sqrt);
  }

  /** The analysis of one scene, in the handler's order: a missing thermal
      band fails first, then a missing NIR or red band, then empty coordinates;
      no partial result is returned. */
  function Analyze(scene: Scene, sqrt: real -> real): (r: Result<AnalysisResult, AnalysisError>)
    requires IsSqrt(sqrt) && scene.Aligned()
    ensures ThermalBand !in scene.bands ==> r == Err(BandFailure(MissingBand([ThermalBand])))
    ensures ThermalBand in scene.bands && (NirBand !in scene.bands || RedBand !in scene.bands) ==>
      r == Err(BandFailure(MissingBand([NirBand, RedBand])))
    ensures r.Ok? <==> CalculateLst(scene).Ok? && CalculateNdvi(scene).Ok? && ImageBounds(scene.coords).Ok?
    ensures CalculateLst(scene).Ok? && CalculateNdvi(scene).Ok? ==>
      SameShape(CalculateLst(scene).value.cells, CalculateNdvi(scene).value.cells)
    ensures r.Ok? ==>
      var lst, ndvi := CalculateLst(scene).value, CalculateNdvi(scene).value;
      var a := r.value;
      && a.lstFrame == LstImageFrame(lst).value && a.ndviFrame == NdviImageFrame(ndvi).value
      && a.lstStats == CalculateStatistics(lst, sqrt) && a.ndviStats == CalculateStatistics(ndvi, sqrt)
      && a.correlation == LstNdviCorrelation(lst, ndvi, sqrt)
      && a.uhiMagnitude == UhiMagnitude(a.lstStats)
    ensures r.Ok? ==>
      var a := r.value;
      && a.lstFrame.bounds == a.ndviFrame.bounds == ImageBounds(scene.coords).value
      && a.ndviFrame.range == Some(NdviRange)
      && a.uhiMagnitude == a.lstStats.max - a.lstStats.min >= 0.0
      && (a.correlation.Some? ==> -1.0 <= a.correlation.value <= 1.0)
      && a.lstStats.min <= a.lstStats.mean <= a.lstStats.max
      && a.ndviStats.min <= a.ndviStats.mean <= a.ndviStats.max
  {
    var lst := CalculateLst(scene);
    if lst.Err? then Err(BandFailure(lst.error))
    else
      var ndvi := CalculateNdvi(scene);
      if ndvi.Err? then Err(BandFailure(ndvi.error))
      else
        DerivedRastersAligned(scene);
        var lstFrame := LstImageFrame(lst.value);
        if lstFrame.Err? then Err(RenderFailure(lstFrame.error))
        else
          var ndviFrame := NdviImageFrame(ndvi.value);
          if ndviFrame.Err? then Err(RenderFailure(EmptyCoordinates))
          else
            var lstStats := CalculateStatistics(lst.value, sqrt);
            var ndviStats := CalculateStatistics(ndvi.value, sqrt);
            var correlation := LstNdviCorrelation(lst.value, ndvi.value, sqrt);
            Ok(AnalysisResult(lstFrame.value, lstStats, ndviFrame.value, ndviStats,
                              correlation, UhiMagnitude(lstStats)))
  }
}
