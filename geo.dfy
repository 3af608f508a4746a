/** The pure parts of `src/utils.py`: the bounding box around a point, the
    reordering of a Nominatim bounding box, the assembly of a place name from
    address parts, and the record that search and reverse geocoding build from
    a geocoder hit. The geocoder itself is not modelled: its answer is a
    parameter. `cos(lat)` is a parameter too (`cosLat`). */
module GeoUtils {
  import opened Wrappers

  /** The buffer `get_city_bbox`, `search_locations` and `reverse_geocode`
      use when the caller gives none. */
  const DefaultBufferKm: real := 15.0
  /** Kilometres per degree of latitude (and of longitude at the equator). */
  const KmPerDegree: real := 111.0

  /** A bounding box in the order `[minLon, minLat, maxLon, maxLat]`. */
  datatype BBox = BBox(minLon: real, minLat: real, maxLon: real, maxLat: real)

  lemma DivNonNegative(a: real, d: real)
    requires 0.0 < d
    ensures 0.0 <= a ==> 0.0 <= a / d
  {
    var q := a / d;
    assert q * d == a;
  }

  /** get_city_bbox: a box `bufferKm` wide on each side of (lat, lon); one
      degree of latitude is 111 km and one degree of longitude 111 km times
      cos(lat). The point is exactly the box's midpoint, and for a
      non-negative buffer it lies inside the box. */
  function CityBbox(lat: real, lon: real, bufferKm: real, cosLat: real): (b: BBox)
    requires 0.0 < cosLat
    ensures (b.minLon + b.maxLon) / 2.0 == lon && (b.minLat + b.maxLat) / 2.0 == lat
    ensures b.maxLat - b.minLat == 2.0 * bufferKm / KmPerDegree
    ensures b.maxLon - b.minLon == 2.0 * bufferKm / (KmPerDegree * cosLat)
    ensures 0.0 <= bufferKm ==> b.minLon <= lon <= b.maxLon && b.minLat <= lat <= b.maxLat
  {
    var latBuffer := bufferKm / KmPerDegree;
    var lonBuffer := bufferKm / (KmPerDegree * cosLat);
    DivNonNegative(bufferKm, KmPerDegree * cosLat);
    BBox(lon - lonBuffer, lat - latBuffer, lon + lonBuffer, lat + latBuffer)
  }

  /** Nominatim's `[min_lat, max_lat, min_lon, max_lon]` reordered into
      `[min_lon, min_lat, max_lon, max_lat]`; a list of any other length fails
      to unpack. No value is changed, only moved. */
  function FromNominatimOrder(raw: seq<real>): (r: Option<BBox>)
    ensures r.Some? <==> |raw| == 4
    ensures r.Some? ==> (r.value.minLat == raw[0] && r.value.maxLat == raw[1] &&
                         r.value.minLon == raw[2] && r.value.maxLon == raw[3])
  {
    if |raw| != 4 then None else Some(BBox(raw[2], raw[0], raw[3], raw[1]))
  }

  /** A box written back in Nominatim's order. */
  function ToNominatimOrder(b: BBox): seq<real>
  {
    [b.minLat, b.maxLat, b.minLon, b.maxLon]
  }

  /** The reordering is a bijection between four-element lists and boxes:
      no value is lost or altered, only moved. */
  lemma NominatimRoundTrip(raw: seq<real>, b: BBox)
    ensures FromNominatimOrder(ToNominatimOrder(b)) == Some(b)
    ensures |raw| == 4 ==> ToNominatimOrder(FromNominatimOrder(raw).value) == raw
  {
  }

  /** The reordering is a pure permutation: the box holds exactly the four
      values of the raw list, each as often as the list does. */
  lemma NominatimPermutation(raw: seq<real>)
    requires |raw| == 4
    ensures var b := FromNominatimOrder(raw).value;
      multiset([b.minLon, b.minLat, b.maxLon, b.maxLat]) == multiset(raw)
  {
    var b := FromNominatimOrder(raw).value;
    var a0, a1, a2, a3 := raw[0], raw[1], raw[2], raw[3];
    assert raw == [a0] + [a1] + [a2] + [a3];
    assert [b.minLon, b.minLat, b.maxLon, b.maxLat] == [a2] + [a0] + [a3] + [a1];
    assert multiset(raw) == multiset{a0} + multiset{a1} + multiset{a2} + multiset{a3};
  }

  /** The box `search_locations` reports: Nominatim's own box when it sent a
      non-empty one (None when it does not unpack into four values), otherwise
      the box around the hit. */
  function SearchBbox(rawBbox: Option<seq<real>>, lat: real, lon: real, bufferKm: real, cosLat: real): (r: Option<BBox>)
    requires 0.0 < cosLat
    ensures rawBbox.None? || rawBbox.value == [] ==> r == Some(CityBbox(lat, lon, bufferKm, cosLat))
    ensures rawBbox.Some? && rawBbox.value != [] ==> r == FromNominatimOrder(rawBbox.value)
  {
    if rawBbox.Some? && rawBbox.value != [] then FromNominatimOrder(rawBbox.value)
    else Some(CityBbox(lat, lon, bufferKm, cosLat))
  }

  // ---------------------------------------------------------------- names

  /** Address keys tried, in order, for the name of a searched place ... */
  const SearchNameKeys: seq<string> := ["city", "town", "village", "state", "country"]
  /** ... and for the name of a reverse-geocoded point. */
  const ReverseNameKeys: seq<string> := ["city", "town", "village", "county", "state", "country"]
  /** A reverse-geocoded name keeps at most this many parts. */
  const ReverseNameMaxParts: nat := 3

  /** The values of the keys present in the address, in the keys' order. */
  function PresentValues(address: map<string, string>, keys: seq<string>): (parts: seq<string>)
    ensures |parts| <= |keys|
  {
    if keys == [] then []
    else if keys[0] in address then [address[keys[0]]] + PresentValues(address, keys[1..])
    else PresentValues(address, keys[1..])
  }

  /** Present values of a concatenation of key lists are concatenated. */
  lemma {:induction false} PresentValuesAppend(address: map<string, string>, k1: seq<string>, k2: seq<string>)
    ensures PresentValues(address, k1 + k2) == PresentValues(address, k1) + PresentValues(address, k2)
  {
    if k1 == [] {
      assert k1 + k2 == k2;
    } else {
      assert (k1 + k2)[1..] == k1[1..] + k2;
      PresentValuesAppend(address, k1[1..], k2);
    }
  }

  /** No part is found exactly when none of the keys is in the address. */
  lemma {:induction false} PresentValuesEmpty(address: map<string, string>, keys: seq<string>)
    ensures PresentValues(address, keys) == [] <==> forall i :: 0 <= i < |keys| ==> keys[i] !in address
  {
    if keys != [] {
      PresentValuesEmpty(address, keys[1..]);
      if keys[0] !in address {
        forall i | 1 <= i < |keys| ensures keys[i] == keys[1..][i - 1] { }
      }
    }
  }

  /** The `for key in ...: if key in address: name_parts.append(...)` loop. */
  method CollectNameParts(address: map<string, string>, keys: seq<string>) returns (parts: seq<string>)
    ensures parts == PresentValues(address, keys)
  {
    parts := [];
    for i := 0 to |keys|
      invariant parts == PresentValues(address, keys[..i])
    {
      PresentValuesAppend(address, keys[..i], [keys[i]]);
      assert keys[..i + 1] == keys[..i] + [keys[i]];
      if keys[i] in address {
        parts := parts + [address[keys[i]]];
      }
    }
    assert keys[..|keys|] == keys;
  }

  /** `sep.join(parts)`: the first part leads the text and the last ends it. */
  function Join(sep: string, parts: seq<string>): (r: string)
    ensures parts != [] ==> parts[0] <= r
    ensures parts != [] ==> |parts[|parts| - 1]| <= |r| && r[|r| - |parts[|parts| - 1]|..] == parts[|parts| - 1]
  {
    if parts == [] then ""
    else if |parts| == 1 then parts[0]
    else
      var head, rest := parts[0] + sep, Join(sep, parts[1..]);
      assert (head + rest)[|head| + |rest| - |parts[|parts| - 1]|..] == rest[|rest| - |parts[|parts| - 1]|..];
      head + rest
  }

  /** `s.split(',')[0]`: the text before the first comma, or all of `s` when it
      has none. */
  function BeforeFirstComma(s: string): (r: string)
    ensures r <= s && ',' !in r
    ensures |r| < |s| ==> s[|r|] == ','
  {
    if s == [] || s[0] == ',' then []
    else [s[0]] + BeforeFirstComma(s[1..])
  }

  /** The name `search_locations` gives a place: its present address parts
      joined with ", ", else the first comma-separated field of the full address. */
  function SearchName(address: map<string, string>, fullAddress: string): string
  {
    var parts := PresentValues(address, SearchNameKeys);
    if parts != [] then Join(", ", parts) else BeforeFirstComma(fullAddress)
  }

  /** The name `reverse_geocode` gives a point: at most its first three
      present address parts joined with ", ", else "Location (lat, lon)" with
      the coordinates as formatted text. */
  function ReverseName(address: map<string, string>, latText: string, lonText: string): string
  {
    var parts := PresentValues(address, ReverseNameKeys);
    if parts != [] then Join(", ", parts[..if |parts| < ReverseNameMaxParts then |parts| else ReverseNameMaxParts])
    else "Location (" + latText + ", " + lonText + ")"
  }

  /** With none of the name keys present, the search name is the first
      comma-separated field of the full address. */
  lemma SearchNameFallback(address: map<string, string>, fullAddress: string)
    requires forall i :: 0 <= i < |SearchNameKeys| ==> SearchNameKeys[i] !in address
    ensures SearchName(address, fullAddress) == BeforeFirstComma(fullAddress)
  {
    PresentValuesEmpty(address, SearchNameKeys);
  }

  /** Present values over a key list that starts with `k`. */
  lemma PresentValuesCons(address: map<string, string>, k: string, rest: seq<string>)
    ensures PresentValues(address, [k] + rest)
         == (if k in address then [address[k]] else []) + PresentValues(address, rest)
  {
    assert ([k] + rest)[0] == k && ([k] + rest)[1..] == rest;
  }

  /** Joining a part in front of a non-empty list puts the separator between. */
  lemma JoinCons(sep: string, p: string, rest: seq<string>)
    requires rest != []
    ensures Join(sep, [p] + rest) == p + sep + Join(sep, rest)
  {
    assert ([p] + rest)[1..] == rest;
  }

  lemma JoinThree(sep: string, a: string, b: string, c: string)
    ensures Join(sep, [a, b, c]) == a + sep + (b + sep + c)
  {
    assert [b, c] == [b] + [c];
    JoinCons(sep, b, [c]);
    var bc := b + sep + c;
    assert Join(sep, [b, c]) == bc;
    assert [a, b, c] == [a] + [b, c];
    JoinCons(sep, a, [b, c]);
    assert Join(sep, [a, b, c]) == a + sep + bc;
  }

  /** With city, county and state present and no town or village, the first
      three present parts are city, county and state. */
  lemma ReverseNamePartsCityCountyState(address: map<string, string>)
    requires "city" in address && "town" !in address && "village" !in address
    requires "county" in address && "state" in address
    ensures PresentValues(address, ReverseNameKeys)
         == [address["city"], address["county"], address["state"]] + PresentValues(address, ["country"])
  {
    var k4 := ["state"] + ["country"];
    var k3 := ["county"] + k4;
    var k2 := ["village"] + k3;
    var k1 := ["town"] + k2;
    assert ReverseNameKeys == ["city"] + k1;
    PresentValuesCons(address, "state", ["country"]);
    PresentValuesCons(address, "county", k4);
    PresentValuesCons(address, "village", k3);
    PresentValuesCons(address, "town", k2);
    PresentValuesCons(address, "city", k1);
  }

  /** A point whose address has a city, a county and a state (and no town or
      village) is named after those three: a country, if any, is dropped. */
  lemma ReverseNameKeepsThree(address: map<string, string>, latText: string, lonText: string)
    requires "city" in address && "town" !in address && "village" !in address
    requires "county" in address && "state" in address
    ensures ReverseName(address, latText, lonText)
         == address["city"] + ", " + address["county"] + ", " + address["state"]
  {
    ReverseNamePartsCityCountyState(address);
    JoinThree(", ", address["city"], address["county"], address["state"]);
    var parts := PresentValues(address, ReverseNameKeys);
    assert parts[..ReverseNameMaxParts] == [address["city"], address["county"], address["state"]];
  }

  /** With none of the name keys present, the reverse name is the
      "Location (lat, lon)" text; with any present, it is built from parts. */
  lemma ReverseNameFallback(address: map<string, string>, latText: string, lonText: string)
    ensures (forall i :: 0 <= i < |ReverseNameKeys| ==> ReverseNameKeys[i] !in address)
        <==> ReverseName(address, latText, lonText) == "Location (" + latText + ", " + lonText + ")"
              && PresentValues(address, ReverseNameKeys) == []
  {
    PresentValuesEmpty(address, ReverseNameKeys);
  }

  /** When some name key is present, the search name is built from the present
      parts alone and does not depend on the full address. */
  lemma SearchNamePrefersParts(address: map<string, string>, full1: string, full2: string)
    requires exists i :: 0 <= i < |SearchNameKeys| && SearchNameKeys[i] in address
    ensures SearchName(address, full1) == SearchName(address, full2)
                                       == Join(", ", PresentValues(address, SearchNameKeys))
  {
    PresentValuesEmpty(address, SearchNameKeys);
  }

  /** The reverse name joins exactly the first min(3, n) of the n present
      parts in key order: all of them when there are at most three. */
  lemma ReverseNameUsesLeadingParts(address: map<string, string>, latText: string, lonText: string)
    requires PresentValues(address, ReverseNameKeys) != []
    ensures var parts := PresentValues(address, ReverseNameKeys);
      |parts| <= ReverseNameMaxParts ==> ReverseName(address, latText, lonText) == Join(", ", parts)
    ensures var parts := PresentValues(address, ReverseNameKeys);
      |parts| > ReverseNameMaxParts ==>
        ReverseName(address, latText, lonText) == Join(", ", parts[..ReverseNameMaxParts])
  {
    var parts := PresentValues(address, ReverseNameKeys);
    assert parts[..|parts|] == parts;
  }

  // ---------------------------------------------------------------- records

  /** What the geocoder returns for a query: its coordinates, its raw
      `boundingbox` (absent or a list), its address parts and its full address. */
  datatype GeocodeHit = GeocodeHit(lat: real, lon: real, rawBbox: Option<seq<real>>,
                                   address: map<string, string>, fullAddress: string)

  /** What the reverse geocoder returns for a point: address parts and full address. */
  datatype ReverseHit = ReverseHit(address: map<string, string>, fullAddress: string)

  /** The dictionary both lookups return. */
  datatype LocationRecord = LocationRecord(name: string, lat: real, lon: real,
                                           bbox: BBox, displayName: string)

  /** search_locations after the geocoder call: None when nothing was found
      or the raw box fails to unpack; otherwise the hit's coordinates, its box
      (raw or built), its name and its full address. `cosLat` is cos of the
      hit's latitude. */
  method SearchLocations(hit: Option<GeocodeHit>, bufferKm: real, cosLat: real) returns (r: Option<LocationRecord>)
    requires 0.0 < cosLat
    ensures hit.None? ==> r.None?
    ensures hit.Some? ==>
      var h := hit.value;
      var box := SearchBbox(h.rawBbox, h.lat, h.lon, bufferKm, cosLat);
      && (r.Some? <==> box.Some?)
      && (r.Some? ==> r.value == LocationRecord(SearchName(h.address, h.fullAddress), h.lat, h.lon,
                                                box.value, h.fullAddress))
  {
    if hit.None? {
      return None;
    }
    var h := hit.value;
    var box := SearchBbox(h.rawBbox, h.lat, h.lon, bufferKm, cosLat);
    if box.None? {
      return None;
    }
    var parts := CollectNameParts(h.address, SearchNameKeys);
    var name := if parts != [] then Join(", ", parts) else BeforeFirstComma(h.fullAddress);
    r := Some(LocationRecord(name, h.lat, h.lon, box.value, h.fullAddress));
  }

  /** reverse_geocode after the geocoder call: None when nothing was found;
      otherwise the given coordinates, the box built around them, the
      reverse name and the full address. */
  method ReverseGeocode(hit: Option<ReverseHit>, lat: real, lon: real, bufferKm: real, cosLat: real,
                        latText: string, lonText: string) returns (r: Option<LocationRecord>)
    requires 0.0 < cosLat
    ensures r.Some? <==> hit.Some?
    ensures r.Some? ==> r.value == LocationRecord(ReverseName(hit.value.address, latText, lonText),
                                                  lat, lon, CityBbox(lat, lon, bufferKm, cosLat),
                                                  hit.value.fullAddress)
  {
    if hit.None? {
      return None;
    }
    var parts := CollectNameParts(hit.value.address, ReverseNameKeys);
    var name;
    if parts != [] {
      var k := if |parts| < ReverseNameMaxParts then |parts| else ReverseNameMaxParts;
      name := Join(", ", parts[..k]);
    } else {
      name := "Location (" + latText + ", " + lonText + ")";
    }
    r := Some(LocationRecord(name, lat, lon, CityBbox(lat, lon, bufferKm, cosLat), hit.value.fullAddress));
  }

  /** get_city_coordinates: search with the default buffer, then take the
      box and the (lat, lon) centre of the result, or (None, None) when the
      search found nothing. A hit without a raw box gets the 15 km box. */
  method GetCityCoordinates(hit: Option<GeocodeHit>, cosLat: real) returns (bbox: Option<BBox>, center: Option<(real, real)>)
    requires 0.0 < cosLat
    ensures hit.None? ==> bbox.None? && center.None?
    ensures hit.Some? ==>
      var box := SearchBbox(hit.value.rawBbox, hit.value.lat, hit.value.lon, DefaultBufferKm, cosLat);
      && (bbox.Some? <==> box.Some?) && (center.Some? <==> box.Some?)
      && (box.Some? ==> bbox == box && center.value == (hit.value.lat, hit.value.lon))
    ensures hit.Some? && (hit.value.rawBbox.None? || hit.value.rawBbox.value == []) ==>
      && bbox == Some(CityBbox(hit.value.lat, hit.value.lon, DefaultBufferKm, cosLat))
      && bbox.value.maxLat - bbox.value.minLat == 30.0 / KmPerDegree
  {
    var result := SearchLocations(hit, DefaultBufferKm, cosLat);
    var r := CityCoordinates(result);
    bbox, center := r.0, r.1;
  }

  /** The box and (lat, lon) centre of a search result, or (None, None) when
      the search found nothing. */
  function CityCoordinates(result: Option<LocationRecord>): (r: (Option<BBox>, Option<(real, real)>))
    ensures r.0.Some? <==> result.Some?
    ensures r.1.Some? <==> result.Some?
    ensures result.Some? ==> r.0.value == result.value.bbox && r.1.value == (result.value.lat, result.value.lon)
  {
    if result.None? then (None, None)
    else (Some(result.value.bbox), Some((result.value.lat, result.value.lon)))
  }
}
