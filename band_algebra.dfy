/** Band algebra of `src/processor.py`: Landsat Collection 2 Level 2 digital
    numbers (DNs) to land surface temperature in degrees Celsius and to NDVI.
    Cells are exact reals instead of float32; a masked cell is `None` (NaN). */
module BandAlgebra {
  import opened Wrappers
  import opened Grids

  // Surface temperature scale and offset (DN to kelvin) and the kelvin/Celsius shift.
  const ThermalScale: real := 0.003418
  const ThermalOffset: real := 149.0
  const KelvinAtZeroCelsius: real := 273.15
  /** Cells at or below this temperature are background / no-data. */
  const LstFloor: real := -100.0

  // Surface reflectance scale and offset, and the NDVI denominator guard.
  const ReflectanceScale: real := 0.0000275
  const ReflectanceOffset: real := -0.2
  const NdviEpsilon: real := 0.000001

  // Band names the two calculations look up in a scene.
  const ThermalBand: string := "lwir11"
  const NirBand: string := "nir08"
  const RedBand: string := "red"

  /** An in-memory scene: named DN bands on one rows x cols pixel grid, and the
      coordinate vectors attached to it (name -> values). */
  datatype Scene = Scene(rows: nat, cols: nat,
                         bands: map<string, Grid<int>>,
                         coords: map<string, seq<real>>)
  {
    /** Every band is aligned on the scene's pixel grid. */
    predicate Aligned()
    {
      forall b :: b in bands ==> IsGrid(bands[b], rows, cols)
    }
  }

  /** A derived raster: one possibly missing value per pixel, with the
      coordinates of the band it was computed from. */
  datatype Raster = Raster(cells: Grid<Option<real>>, coords: map<string, seq<real>>)

  /** The ValueError raised when a required band is absent; it lists the bands
      the calculation requires. */
  datatype BandError = MissingBand(required: seq<string>)

  /** Celsius for one thermal DN, before masking. */
  function Celsius(dn: int): real
  {
    dn as real * ThermalScale + ThermalOffset - KelvinAtZeroCelsius
  }

  /** One LST cell: kept only when strictly above -100 degrees Celsius. */
  function LstCell(dn: int): (c: Option<real>)
    ensures c.Some? ==> c.value == Celsius(dn) && c.value > LstFloor
    ensures c.None? ==> Celsius(dn) <= LstFloor
  {
    if Celsius(dn) > LstFloor then Some(Celsius(dn)) else None
  }

  /** The -100 degree mask expressed on the DNs themselves: 7066 is the
      smallest DN kept, so DN 0 (about -124.15 degrees) is always missing. */
  lemma LstKeptIffDnAtLeast7066(dn: int)
    ensures LstCell(dn).Some? <==> dn >= 7066
    ensures LstCell(0) == None
  {
  }

  /** Kept LST values are strictly increasing in the DN (the scale is positive). */
  lemma LstStrictlyIncreasing(dn1: int, dn2: int)
    requires dn1 < dn2
    ensures Celsius(dn1) < Celsius(dn2)
    ensures LstCell(dn1).Some? ==> LstCell(dn2).Some? && LstCell(dn1).value < LstCell(dn2).value
  {
  }

  /** The DNs 0, 10000, 20000 and 30000 give exactly -124.15, -89.97, -55.79
      and -21.61 degrees; only the first is masked. */
  lemma LstSampleValues()
    ensures Celsius(0) == -124.15 && LstCell(0) == None
    ensures LstCell(10000) == Some(-89.97)
    ensures LstCell(20000) == Some(-55.79)
    ensures LstCell(30000) == Some(-21.61)
  {
  }

  /** Surface reflectance for one DN. */
  function Reflectance(dn: int): real
  {
    dn as real * ReflectanceScale + ReflectanceOffset
  }

  /** For integer DNs the NDVI denominator `nir + red + 1e-6` is never zero:
      it is zero only at nir + red = 14545.418..., which no integer sum reaches. */
  lemma NdviDenominatorNonZero(nir: int, red: int)
    ensures Reflectance(nir) + Reflectance(red) + NdviEpsilon != 0.0
  {
    var s := nir + red;
    assert Reflectance(nir) + Reflectance(red) + NdviEpsilon == s as real * 0.0000275 - 0.399999;
    if s <= 14545 {
      assert s as real * 0.0000275 <= 0.3999875;
    } else {
      assert s as real * 0.0000275 >= 0.400015;
    }
  }

  /** The raw normalised difference for one pixel, before masking. */
  function NdviRatio(nir: int, red: int): real
  {
    NdviDenominatorNonZero(nir, red);
    (Reflectance(nir) - Reflectance(red)) / (Reflectance(nir) + Reflectance(red) + NdviEpsilon)
  }

  /** One NDVI cell: the ratio itself when it lies strictly inside (-1, 1),
      missing otherwise; never clamped to the interval. */
  function NdviCell(nir: int, red: int): (c: Option<real>)
    ensures c.Some? <==> -1.0 < NdviRatio(nir, red) < 1.0
    ensures c.Some? ==> c.value == NdviRatio(nir, red) && -1.0 < c.value < 1.0
  {
    var v := NdviRatio(nir, red);
    if -1.0 < v && v < 1.0 then Some(v) else None
  }

  /** Equal NIR and red DNs give NDVI exactly 0, which is kept. */
  lemma NdviEqualBandsIsZero(dn: int)
    ensures NdviCell(dn, dn) == Some(0.0)
  {
    NdviDenominatorNonZero(dn, dn);
  }

  /** An out-of-range ratio is dropped rather than clamped: NIR DN 10000 over
      red DN 0 gives a ratio of -2.2 (a negative denominator), and the cell is
      missing, not -1. */
  lemma NdviOutOfRangeIsMasked()
    ensures NdviRatio(10000, 0) < -1.0
    ensures NdviCell(10000, 0) == None
  {
    assert Reflectance(10000) == 0.075;
    assert Reflectance(0) == -0.2;
    assert Reflectance(10000) + Reflectance(0) + NdviEpsilon == -0.124999;
  }

  /** calculate_lst: fails when the thermal band is absent, otherwise applies
      LstCell to every pixel of that band and keeps the scene's coordinates. */
  function CalculateLst(scene: Scene): (r: Result<Raster, BandError>)
    ensures r.Err? <==> ThermalBand !in scene.bands
    ensures r.Err? ==> r.error == MissingBand([ThermalBand])
    ensures r.Ok? ==> r.value.coords == scene.coords && SameShape(scene.bands[ThermalBand], r.value.cells)
    ensures r.Ok? ==> forall i, j :: 0 <= i < |r.value.cells| && 0 <= j < |r.value.cells[i]| ==>
      r.value.cells[i][j] == LstCell(scene.bands[ThermalBand][i][j])
  {
    if ThermalBand !in scene.bands then Err(MissingBand([ThermalBand]))
    else Ok(Raster(MapGrid(scene.bands[ThermalBand], LstCell), scene.coords))
  }

  /** calculate_ndvi: fails when either the NIR or the red band is absent,
      otherwise applies NdviCell to every pair of pixels. */
  function CalculateNdvi(scene: Scene): (r: Result<Raster, BandError>)
    requires scene.Aligned()
    ensures r.Err? <==> NirBand !in scene.bands || RedBand !in scene.bands
    ensures r.Err? ==> r.error == MissingBand([NirBand, RedBand])
    ensures r.Ok? ==> r.value.coords == scene.coords && SameShape(scene.bands[NirBand], r.value.cells)
    ensures r.Ok? ==> forall i, j :: 0 <= i < |r.value.cells| && 0 <= j < |r.value.cells[i]| ==>
      r.value.cells[i][j] == NdviCell(scene.bands[NirBand][i][j], scene.bands[RedBand][i][j])
  {
    if NirBand !in scene.bands || RedBand !in scene.bands then Err(MissingBand([NirBand, RedBand]))
    else
      var nir, red := scene.bands[NirBand], scene.bands[RedBand];
      assert SameShape(nir, red) by {
        assert IsGrid(nir, scene.rows, scene.cols) && IsGrid(red, scene.rows, scene.cols);
      }
      Ok(Raster(ZipGrid(nir, red, NdviCell), scene.coords))
  }

  /** Every kept LST cell is above -100 degrees, and a pixel with DN 0 is missing. */
  lemma LstCellsAboveFloor(scene: Scene, i: nat, j: nat)
    requires CalculateLst(scene).Ok?
    requires i < |CalculateLst(scene).value.cells| && j < |CalculateLst(scene).value.cells[i]|
    ensures CalculateLst(scene).value.cells[i][j].Some? ==> CalculateLst(scene).value.cells[i][j].value > LstFloor
    ensures scene.bands[ThermalBand][i][j] == 0 ==> CalculateLst(scene).value.cells[i][j] == None
  {
  }

  /** Every kept NDVI cell lies strictly inside (-1, 1); a pixel whose NIR and
      red DNs are equal is exactly 0 and kept. */
  lemma NdviCellsInOpenInterval(scene: Scene, i: nat, j: nat)
    requires scene.Aligned() && CalculateNdvi(scene).Ok?
    requires i < |CalculateNdvi(scene).value.cells| && j < |CalculateNdvi(scene).value.cells[i]|
    ensures CalculateNdvi(scene).value.cells[i][j].Some? ==> -1.0 < CalculateNdvi(scene).value.cells[i][j].value < 1.0
    ensures scene.bands[NirBand][i][j] == scene.bands[RedBand][i][j] ==>
      CalculateNdvi(scene).value.cells[i][j] == Some(0.0)
  {
    if scene.bands[NirBand][i][j] == scene.bands[RedBand][i][j] {
      NdviEqualBandsIsZero(scene.bands[NirBand][i][j]);
    }
  }

  /** Both rasters of an aligned scene keep the scene's grid shape. */
  lemma DerivedRastersAligned(scene: Scene)
    requires scene.Aligned() && CalculateLst(scene).Ok? && CalculateNdvi(scene).Ok?
    ensures SameShape(CalculateLst(scene).value.cells, CalculateNdvi(scene).value.cells)
  {
    var t, n := scene.bands[ThermalBand], scene.bands[NirBand];
    assert IsGrid(t, scene.rows, scene.cols) && IsGrid(n, scene.rows, scene.cols);
  }
}
