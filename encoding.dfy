/** src/encoding.rs: the second integer encoder, `get_digipin`. Its loop runs the shift
    `2 * i` down from 18 to 0, and it places the separators by the loop counter (after i = 7 and
    after i = 4).

    The float arithmetic `(frac * POWER_F).floor()` is not modelled. It is the parameter `rawLat`
    (`rawLon`), the floor's value, taken before `.min(POWER_F - 1.0) as u32`. On the
    non-negative values that pass the range check, clamping the float before the cast and
    clamping the integer after it agree. */
module Encoding {
  import opened Errors
  import opened Constants
  import opened Digits

  /** `get_digipin(latitude, longitude)`: the same checks, in the same order, as the encoder of
      src/encode.rs, and on accepted input the same code. */
  method GetDigipin(latitude: F64, longitude: F64, rawLat: nat, rawLon: nat) returns (r: Result<string>)
    ensures !InClosed(latitude, BOUNDS.minLat, BOUNDS.maxLat) ==> r == Err(LatitudeOutOfRange(latitude))
    ensures InClosed(latitude, BOUNDS.minLat, BOUNDS.maxLat) && !InClosed(longitude, BOUNDS.minLon, BOUNDS.maxLon) ==>
              r == Err(LongitudeOutOfRange(longitude))
    ensures InClosed(latitude, BOUNDS.minLat, BOUNDS.maxLat) && InClosed(longitude, BOUNDS.minLon, BOUNDS.maxLon) ==>
              r == Ok(Code(Clamp(rawLat), Clamp(rawLon)))
  {
    if !InClosed(latitude, BOUNDS.minLat, BOUNDS.maxLat) {
      return Err(LatitudeOutOfRange(latitude));
    }
    if !InClosed(longitude, BOUNDS.minLon, BOUNDS.maxLon) {
      return Err(LongitudeOutOfRange(longitude));
    }
    var idxLat := if rawLat < Power - 1 then rawLat else Power - 1;
    var idxLon := if rawLon < Power - 1 then rawLon else Power - 1;
    var digipin := WriteLevels(idxLat, idxLon);
    return Ok(digipin);
  }

  /** The loop of `get_digipin`: `i` runs from 9 down to 0, the symbol at `i` takes the digits
      `(idx >> 2i) & 3`, and a '-' follows the symbols written at i = 7 and i = 4. */
  method WriteLevels(idxLat: nat, idxLon: nat) returns (digipin: string)
    ensures digipin == Code(idxLat, idxLon)
  {
    ghost var syms := Symbols(idxLat, idxLon);
    digipin := "";
    for i := 10 downto 0
      invariant digipin == Partial(syms, 10 - i)
    {
      var shift := 2 * i;
      var row := Shr(idxLat, shift) % 4;
      var col := Shr(idxLon, shift) % 4;
      ghost var level := 9 - i;
      assert shift == 18 - 2 * level && 10 - i == level + 1;
      assert GridAt(row, col) == syms[level];
      digipin := digipin + [GridAt(row, col)];
      if i == 7 || i == 4 {
        digipin := digipin + "-";
      }
      PartialStep(syms, level);
    }
    PartialEnds(syms);
  }
}
