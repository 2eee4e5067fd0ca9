/** src/encode.rs: `get_digipin`, the encoder that works on integer indices. After the range
    checks it turns each coordinate into an index below `POWER`. It then writes the ten levels
    from the most significant two bits down, with a '-' after the third and sixth symbols.

    The float arithmetic that yields the index, `((frac * POWER as f64) as u32)`, is not modelled.
    It is the parameter `rawLat` (`rawLon`), taken before the clamp `.min(POWER - 1)`. */
module Encode {
  import opened Errors
  import opened Constants
  import opened Digits

  /** `get_digipin(latitude, longitude)`: a coordinate outside the rectangle is rejected,
      latitude first; otherwise the result is the code of the clamped index pair. */
  method GetDigipin(latitude: F64, longitude: F64, rawLat: nat, rawLon: nat) returns (r: Result<string>)
    ensures !InClosed(latitude, BOUNDS.minLat, BOUNDS.maxLat) ==> r == Err(LatitudeOutOfRange(latitude))
    ensures InClosed(latitude, BOUNDS.minLat, BOUNDS.maxLat) && !InClosed(longitude, BOUNDS.minLon, BOUNDS.maxLon) ==>
              r == Err(LongitudeOutOfRange(longitude))
    ensures InClosed(latitude, BOUNDS.minLat, BOUNDS.maxLat) && InClosed(longitude, BOUNDS.minLon, BOUNDS.maxLon) ==>
              r == Ok(Code(Clamp(rawLat), Clamp(rawLon)))
  {
    if !InClosed(latitude, BOUNDS.minLat, BOUNDS.maxLat) {
      return Err(LatitudeOutOfRange(latitude));
    }
    if !InClosed(longitude, BOUNDS.minLon, BOUNDS.maxLon) {
      return Err(LongitudeOutOfRange(longitude));
    }
    var idxLat := if rawLat < Power - 1 then rawLat else Power - 1;
    var idxLon := if rawLon < Power - 1 then rawLon else Power - 1;
    var digipin := WriteLevels(idxLat, idxLon);
    return Ok(digipin);
  }

  /** The loop of `get_digipin`: level `k` takes the digits `(idx >> (18 - 2k)) & 3`, and a '-'
      follows the symbols of levels 2 and 5. */
  method WriteLevels(idxLat: nat, idxLon: nat) returns (digipin: string)
    ensures digipin == Code(idxLat, idxLon)
  {
    ghost var syms := Symbols(idxLat, idxLon);
    digipin := "";
    for level := 0 to 10
      invariant digipin == Partial(syms, level)
    {
      var shift := 18 - 2 * level;
      var row := Shr(idxLat, shift) % 4;
      var col := Shr(idxLon, shift) % 4;
      assert GridAt(row, col) == syms[level];
      digipin := digipin + [GridAt(row, col)];
      if level == 2 || level == 5 {
        digipin := digipin + "-";
      }
      PartialStep(syms, level);
    }
    PartialEnds(syms);
  }

  /** The test `test_invalid_coordinates`: latitude 50.0 fails the latitude check; latitude 28.0
      passes it, and longitude 120.0 fails the longitude check. */
  lemma InvalidCoordinates()
    ensures !InClosed(Finite(50.0), BOUNDS.minLat, BOUNDS.maxLat)
    ensures InClosed(Finite(28.0), BOUNDS.minLat, BOUNDS.maxLat) && !InClosed(Finite(120.0), BOUNDS.minLon, BOUNDS.maxLon)
  {
  }
}
