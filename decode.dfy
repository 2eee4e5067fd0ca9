/** src/decode.rs: the integer decoder. It reads the symbols through
    `chars().filter(|&c| c != '-')` and looks each one up in the shared table `LOOKUP`, which
    also accepts the lower-case aliases. It rebuilds both indices from the positions.

    The conversion of the indices to the centre of their cell, in floating point, is not
    modelled; the decoder's result here is the index pair. */
module Decode {
  import opened Errors
  import opened Constants
  import opened Digits

  /** `find_char_in_grid`: a character above 127 is rejected outright; otherwise the table
      decides. */
  function FindCharInGrid(ch: char): (r: Result<Cell>)
    ensures ch as int > 127 ==> r == Err(InvalidCharacter(ch))
    ensures r.Err? ==> r == Err(InvalidCharacter(ch))
    ensures r.Ok? ==> InGrid(r.value)
    ensures r.Ok? ==> var sym := GridAt(r.value.row, r.value.col); sym == ch || (IsUpperLetter(sym) && Lower(sym) == ch)
  {
    LookupEntriesAreGridPositions();
    if ch as int > 127 then Err(InvalidCharacter(ch))
    else match Lookup(ch)
      case Some(cell) => Ok(cell)
      case None => Err(InvalidCharacter(ch))
  }

  /** The lookup accepts every grid symbol at its own position, and the lower-case form of every
      grid letter at that letter's position. */
  lemma FindCharInGridAccepts()
    ensures InvertsGrid(FindCharInGrid)
    ensures CellsInGrid(FindCharInGrid)
    ensures forall r, c | 0 <= r < 4 && 0 <= c < 4 && IsUpperLetter(GridAt(r, c)) ::
      FindCharInGrid(Lower(GridAt(r, c))) == Ok(Cell(r, c))
  {
    LookupInvertsGrid();
    LowercaseAliases();
    forall r, c | 0 <= r < 4 && 0 <= c < 4 && IsUpperLetter(GridAt(r, c))
      ensures FindCharInGrid(Lower(GridAt(r, c))) == Ok(Cell(r, c))
    {
      assert Lower(GridAt(r, c)) as int < 128;
    }
  }

  /** `get_coordinates_from_digipin` at the index layer: the ten-symbol loop, then the check
      for an eleventh symbol. */
  method GetCoordinatesFromDigipin(digipin: string) returns (r: Result<Indices>)
    ensures r == DecodeSpec(FindCharInGrid, digipin)
  {
    r := DecodeChars(FindCharInGrid, digipin);
  }

  /** Encoding then decoding: the code of any index pair decodes to that pair. */
  lemma DecodeOfCode(lat: nat, lon: nat)
    requires lat < Power && lon < Power
    ensures DecodeSpec(FindCharInGrid, Code(lat, lon)) == Ok(Indices(lat, lon))
  {
    FindCharInGridAccepts();
    DecodeCode(FindCharInGrid, lat, lon);
  }

  /** Decoding then encoding: whatever decodes is a cell of the grid, and its code decodes to
      it again. */
  lemma CodeOfDecode(s: string)
    requires DecodeSpec(FindCharInGrid, s).Ok?
    ensures DecodeSpec(FindCharInGrid, s).value.lat < Power && DecodeSpec(FindCharInGrid, s).value.lon < Power
    ensures DecodeSpec(FindCharInGrid, Code(DecodeSpec(FindCharInGrid, s).value.lat, DecodeSpec(FindCharInGrid, s).value.lon)) ==
            DecodeSpec(FindCharInGrid, s)
  {
    FindCharInGridAccepts();
    DecodeBound(FindCharInGrid, s);
    var ix := DecodeSpec(FindCharInGrid, s).value;
    DecodeOfCode(ix.lat, ix.lon);
  }

  /** The test `test_invalid_digipin`, first half: the six symbols of "FCJ-3F9" are too
      few. */
  lemma TooFewSymbols()
    ensures DecodeSpec(FindCharInGrid, "FCJ-3F9") == Err(InvalidLength(6))
  {
    StripShort();
    var p := "FCJ3F9";
    forall j | 0 <= j < 6 ensures FindCharInGrid(p[j]).Ok? {
      assert j == 0 || j == 1 || j == 2 || j == 3 || j == 4 || j == 5;
    }
    FirstErrorAt(FindCharInGrid, p, 6);
    DecodeShort(FindCharInGrid, p);
  }

  /** The test `test_invalid_digipin`, second half: the 'Z' of "FCJ-3F9-82Z3" is rejected. */
  lemma RejectsZ()
    ensures DecodeSpec(FindCharInGrid, "FCJ-3F9-82Z3") == Err(InvalidCharacter('Z'))
  {
    StripWithZ();
    var p := "FCJ3F982Z3";
    forall j | 0 <= j < 8 ensures FindCharInGrid(p[..8][j]).Ok? {
      assert j == 0 || j == 1 || j == 2 || j == 3 || j == 4 || j == 5 || j == 6 || j == 7;
    }
    FirstErrorAt(FindCharInGrid, p[..8], 8);
    DecodeRejected(FindCharInGrid, p, 8);
  }

  /** The test `test_digipin_with_hyphens`: "FCJ-3F9-8273" and "FCJ3F98273" decode alike, and
      successfully. */
  lemma HyphensOptional()
    ensures DecodeSpec(FindCharInGrid, "FCJ-3F9-8273") == DecodeSpec(FindCharInGrid, "FCJ3F98273")
    ensures DecodeSpec(FindCharInGrid, "FCJ3F98273").Ok?
  {
    StripWithHyphens();
    var p := "FCJ3F98273";
    StripNoHyphen(p);
    forall j | 0 <= j < 10 ensures FindCharInGrid(p[j]).Ok? {
      assert j == 0 || j == 1 || j == 2 || j == 3 || j == 4 || j == 5 || j == 6 || j == 7 || j == 8 || j == 9;
    }
    FirstErrorAt(FindCharInGrid, p, 10);
    DecodeTen(FindCharInGrid, p);
  }
}
