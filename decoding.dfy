/** src/decoding.rs: the decoder with ASCII fast paths. It has its own 16-entry table `LOOKUP`,
    which has no lower-case aliases. `get_coordinates_from_digipin` and `get_bounds_from_digipin`
    both parse a DIGIPIN into its index pair with the same dispatch:
    - ASCII strings go to `parse_ascii`, which has a path for exactly ten bytes, a path for
      twelve bytes with '-' at positions 3 and 7, and a general byte loop;
    - every other string goes to `parse_unicode`, a loop over the characters.

    What the two functions then compute from the indices in floating point (the cell's centre,
    the cell's bounds) is not modelled. */
module Decoding {
  import opened Errors
  import opened Constants
  import opened Digits

  /** The entries of the module's own `LOOKUP`: the sixteen grid symbols, nothing else. */
  function Table(ch: char): Option<Cell>
    requires ch as int < 128
  {
    match ch
    case 'F' => Some(Cell(0, 0))
    case 'C' => Some(Cell(0, 1))
    case '9' => Some(Cell(0, 2))
    case '8' => Some(Cell(0, 3))
    case 'J' => Some(Cell(1, 0))
    case '3' => Some(Cell(1, 1))
    case '2' => Some(Cell(1, 2))
    case '7' => Some(Cell(1, 3))
    case 'K' => Some(Cell(2, 0))
    case '4' => Some(Cell(2, 1))
    case '5' => Some(Cell(2, 2))
    case '6' => Some(Cell(2, 3))
    case 'L' => Some(Cell(3, 0))
    case 'M' => Some(Cell(3, 1))
    case 'P' => Some(Cell(3, 2))
    case 'T' => Some(Cell(3, 3))
    case _ => None
  }

  /** The const block that builds the module's `LOOKUP`. */
  method BuildTable() returns (table: seq<Option<Cell>>)
    ensures |table| == 128
    ensures forall ch: char | ch as int < 128 :: table[ch as int] == Table(ch)
  {
    var arr := new Option<Cell>[128](_ => None);
    StoreSymbols(arr);
    TableDropsAliases();
    table := arr[..];
    forall ch: char | ch as int < 128 ensures table[ch as int] == Table(ch) {
      assert arr[ch as int] == SymbolEntry(ch);
    }
  }

  /** This table is the shared `LOOKUP` of src/constants.rs without its lower-case aliases. */
  lemma TableDropsAliases()
    ensures forall ch: char | ch as int < 128 ::
      Table(ch) == if 'a' <= ch <= 'z' then None else Lookup(ch)
  {
  }

  /** `find_char_in_grid`: an ASCII character is looked up in the table; anything else is
      rejected. */
  function FindCharInGrid(ch: char): (r: Result<Cell>)
    ensures r.Ok? ==> InGrid(r.value) && GridAt(r.value.row, r.value.col) == ch
    ensures r.Err? ==> r == Err(InvalidCharacter(ch))
  {
    if ch as int < 128 && Table(ch).Some? then Ok(Table(ch).value)
    else Err(InvalidCharacter(ch))
  }

  /** The lookup accepts exactly the grid symbols, each at its own position. */
  lemma FindCharInGridExact()
    ensures InvertsGrid(FindCharInGrid) && ExactInverse(FindCharInGrid)
    ensures forall ch :: FindCharInGrid(ch).Ok? <==> IsGridSymbol(ch)
  {
    LookupInvertsGrid();
  }

  /** The table's lookup and a search of the grid itself give the same answer on every
      character. */
  lemma FindCharInGridIsSearch(ch: char)
    ensures FindCharInGrid(ch) == Locate(ch)
  {
    FindCharInGridExact();
    GridSymbolsDistinct();
  }

  /** The bytes that the twelve-byte path reads: all but positions 3 and 7. */
  function Picked(s: string): string
    requires |s| == 12
  {
    s[..3] + s[4..7] + s[8..]
  }

  /** The list `indices` of the twelve-byte path names the picked bytes in order. */
  lemma PickedAt(s: string, k: nat)
    requires |s| == 12 && k < 10
    ensures Picked(s)[k] == s[[0, 1, 2, 4, 5, 6, 8, 9, 10, 11][k]]
  {
    assert k == 0 || k == 1 || k == 2 || k == 3 || k == 4 || k == 5 || k == 6 || k == 7 || k == 8 || k == 9;
  }

  /** What `parse_ascii` computes. Ten bytes are read as ten symbols as they stand. Twelve bytes
      with '-' at positions 3 and 7 are read as the ten bytes around those two. Anything else
      goes through the general loop, which decodes as `DecodeSpec` does. */
  function ParseAsciiSpec(s: string): Result<Indices> {
    if |s| == 10 then DecodeSymbols(FindCharInGrid, s)
    else if |s| == 12 && s[3] == '-' && s[7] == '-' then DecodeSymbols(FindCharInGrid, Picked(s))
    else DecodeSpec(FindCharInGrid, s)
  }

  /** What `get_coordinates_from_digipin` and `get_bounds_from_digipin` decode a string to. */
  function ParseDigipinSpec(s: string): Result<Indices> {
    if IsAscii(s) then ParseAsciiSpec(s) else DecodeSpec(FindCharInGrid, s)
  }

  /** The ten-byte path of `parse_ascii`. */
  method ParseTen(bytes: string) returns (r: Result<Indices>)
    requires |bytes| == 10 && IsAscii(bytes)
    ensures r == DecodeSymbols(FindCharInGrid, bytes)
  {
    var idxLat: nat, idxLon: nat := 0, 0;
    for i := 0 to 10
      invariant Accepted(FindCharInGrid, bytes, i, idxLat, idxLon)
    {
      var b := bytes[i];
      var entry := Table(b);
      if entry.None? {
        DecodeRejected(FindCharInGrid, bytes, i);
        return Err(InvalidCharacter(b));
      }
      Accept(FindCharInGrid, bytes, i, idxLat, idxLon);
      idxLat := idxLat * 4 + entry.value.row;
      idxLon := idxLon * 4 + entry.value.col;
    }
    AcceptedTen(FindCharInGrid, bytes, idxLat, idxLon);
    return Ok(Indices(idxLat, idxLon));
  }

  /** The twelve-byte path of `parse_ascii`, taken when positions 3 and 7 hold '-'. */
  method ParseGrouped(bytes: string) returns (r: Result<Indices>)
    requires |bytes| == 12 && IsAscii(bytes)
    ensures r == DecodeSymbols(FindCharInGrid, Picked(bytes))
  {
    ghost var q := Picked(bytes);
    var indices := [0, 1, 2, 4, 5, 6, 8, 9, 10, 11];
    var idxLat: nat, idxLon: nat := 0, 0;
    for k := 0 to 10
      invariant Accepted(FindCharInGrid, q, k, idxLat, idxLon)
    {
      PickedAt(bytes, k);
      var b := bytes[indices[k]];
      assert b == q[k];
      var entry := Table(b);
      if entry.None? {
        DecodeRejected(FindCharInGrid, q, k);
        return Err(InvalidCharacter(b));
      }
      Accept(FindCharInGrid, q, k, idxLat, idxLon);
      idxLat := idxLat * 4 + entry.value.row;
      idxLon := idxLon * 4 + entry.value.col;
    }
    AcceptedTen(FindCharInGrid, q, idxLat, idxLon);
    return Ok(Indices(idxLat, idxLon));
  }

  /** The statement `let (row, col) = LOOKUP[b as usize].ok_or(...)?` of the general path,
      followed by the shift of both indices, on the byte `b` under the cursor (not '-'). */
  method TakeByte(bytes: string, i: nat, count: nat, idxLat: nat, idxLon: nat)
    returns (failure: Option<DigipinError>, lat: nat, lon: nat)
    requires i < |bytes| && bytes[i] != '-' && bytes[i] as int < 128 && count < 10
    requires ReadSoFar(FindCharInGrid, bytes, i, count, idxLat, idxLon)
    ensures failure.Some? ==> DecodeSpec(FindCharInGrid, bytes) == Err(failure.value)
    ensures failure.None? ==> ReadSoFar(FindCharInGrid, bytes, i + 1, count + 1, lat, lon)
  {
    var b := bytes[i];
    var entry := Table(b);
    if entry.None? {
      NextIsSymbol(FindCharInGrid, bytes, i, count, idxLat, idxLon);
      DecodeRejected(FindCharInGrid, Strip(bytes), count);
      return Some(InvalidCharacter(b)), idxLat, idxLon;
    }
    TakeSymbol(FindCharInGrid, bytes, i, count, idxLat, idxLon);
    failure, lat, lon := None, idxLat * 4 + entry.value.row, idxLon * 4 + entry.value.col;
  }

  /** The first loop of the general path of `parse_ascii`: bytes are read, '-' skipped and
      symbols looked up until ten symbols are in or the bytes run out. */
  method ScanSymbols(bytes: string)
    returns (failure: Option<DigipinError>, i: nat, count: nat, idxLat: nat, idxLon: nat)
    requires IsAscii(bytes)
    ensures failure.Some? ==> DecodeSpec(FindCharInGrid, bytes) == Err(failure.value)
    ensures failure.None? ==> count <= 10 && (count < 10 ==> i == |bytes|) &&
                              ReadSoFar(FindCharInGrid, bytes, i, count, idxLat, idxLon)
  {
    i, count, idxLat, idxLon := 0, 0, 0, 0;
    while i < |bytes| && count < 10
      invariant count <= 10 && ReadSoFar(FindCharInGrid, bytes, i, count, idxLat, idxLon)
      decreases |bytes| - i
    {
      var b := bytes[i];
      if b == '-' {
        SkipSeparator(FindCharInGrid, bytes, i, count, idxLat, idxLon);
        i := i + 1;
        continue;
      }
      failure, idxLat, idxLon := TakeByte(bytes, i, count, idxLat, idxLon);
      if failure.Some? {
        return;
      }
      count := count + 1;
      i := i + 1;
    }
    failure := None;
  }

  /** The general path of `parse_ascii`: the first loop, then the length check, then a second
      loop that allows only '-' among the bytes left. */
  method ParseGeneral(bytes: string) returns (r: Result<Indices>)
    requires IsAscii(bytes)
    ensures r == DecodeSpec(FindCharInGrid, bytes)
  {
    var failure, i, count, idxLat, idxLon := ScanSymbols(bytes);
    if failure.Some? {
      return Err(failure.value);
    }
    if count < 10 {
      ReadAll(FindCharInGrid, bytes, count, idxLat, idxLon);
      DecodeShort(FindCharInGrid, Strip(bytes));
      return Err(InvalidLength(count));
    }
    while i < |bytes|
      invariant ReadSoFar(FindCharInGrid, bytes, i, 10, idxLat, idxLon)
      decreases |bytes| - i
    {
      var b := bytes[i];
      if b != '-' {
        NextIsSymbol(FindCharInGrid, bytes, i, 10, idxLat, idxLon);
        DecodeLong(FindCharInGrid, Strip(bytes));
        return Err(InvalidLength(count + 1));
      }
      SkipSeparator(FindCharInGrid, bytes, i, 10, idxLat, idxLon);
      i := i + 1;
    }
    ReadAll(FindCharInGrid, bytes, 10, idxLat, idxLon);
    AcceptedTen(FindCharInGrid, Strip(bytes), idxLat, idxLon);
    return Ok(Indices(idxLat, idxLon));
  }

  /** `parse_ascii`: the two fast paths, else the general loop. */
  method ParseAscii(digipin: string) returns (r: Result<Indices>)
    requires IsAscii(digipin)
    ensures r == ParseAsciiSpec(digipin)
  {
    var len := |digipin|;
    if len == 10 {
      r := ParseTen(digipin);
    } else if len == 12 && digipin[3] == '-' && digipin[7] == '-' {
      r := ParseGrouped(digipin);
    } else {
      r := ParseGeneral(digipin);
    }
  }

  /** `parse_unicode`: the character loop over `chars().filter(|&c| c != '-')`. */
  method ParseUnicode(digipin: string) returns (r: Result<Indices>)
    ensures r == DecodeSpec(FindCharInGrid, digipin)
  {
    r := DecodeChars(FindCharInGrid, digipin);
  }

  /** The dispatch at the head of `get_coordinates_from_digipin` and of
      `get_bounds_from_digipin`. */
  method ParseDigipin(digipin: string) returns (r: Result<Indices>)
    ensures r == ParseDigipinSpec(digipin)
  {
    if IsAscii(digipin) {
      r := ParseAscii(digipin);
    } else {
      r := ParseUnicode(digipin);
    }
  }

  // ---------------------------------------------------------------------------------------
  // The fast paths against the general decoding

  /** Ten symbols that the lookup accepts hold no '-'. */
  lemma AcceptedHasNoSeparator(q: string)
    requires |q| == 10 && DecodeSymbols(FindCharInGrid, q).Ok?
    ensures '-' !in q
  {
    assert q[..10] == q;
    forall j | 0 <= j < 10 ensures q[j] != '-' {
      var c := FindCharInGrid(q[j]).value;
      GridHasNoSeparator(c.row, c.col);
    }
  }

  /** The ten-byte path agrees with the general decoding whenever either of them succeeds. */
  lemma TenBytesAgree(s: string)
    requires |s| == 10
    requires DecodeSymbols(FindCharInGrid, s).Ok? || DecodeSpec(FindCharInGrid, s).Ok?
    ensures DecodeSymbols(FindCharInGrid, s) == DecodeSpec(FindCharInGrid, s)
  {
    if DecodeSymbols(FindCharInGrid, s).Ok? {
      AcceptedHasNoSeparator(s);
      StripNoHyphen(s);
    } else {
      DecodeOk(FindCharInGrid, s);
      StripKeepsLength(s);
    }
  }

  /** The twelve-byte path agrees with the general decoding whenever either of them succeeds. */
  lemma TwelveBytesAgree(s: string)
    requires |s| == 12 && s[3] == '-' && s[7] == '-'
    requires DecodeSymbols(FindCharInGrid, Picked(s)).Ok? || DecodeSpec(FindCharInGrid, s).Ok?
    ensures DecodeSymbols(FindCharInGrid, Picked(s)) == DecodeSpec(FindCharInGrid, s)
  {
    var a, b, c := s[..3], s[4..7], s[8..];
    assert s == a + "-" + b + "-" + c;
    StripSeparator(a + "-" + b, c);
    StripSeparator(a, b);
    assert Strip(s) == Strip(a) + Strip(b) + Strip(c);
    if DecodeSymbols(FindCharInGrid, Picked(s)).Ok? {
      AcceptedHasNoSeparator(Picked(s));
      assert '-' !in a && '-' !in b && '-' !in c;
      StripNoHyphen(a);
      StripNoHyphen(b);
      StripNoHyphen(c);
    } else {
      DecodeOk(FindCharInGrid, s);
      StripKeepsLength(a);
      StripKeepsLength(b);
      StripKeepsLength(c);
    }
  }

  /** `parse_ascii` decodes as the general decoding does whenever either of them succeeds: the
      fast paths change which error an invalid string reports, never a result. */
  lemma FastPathsAgree(s: string)
    requires ParseAsciiSpec(s).Ok? || DecodeSpec(FindCharInGrid, s).Ok?
    ensures ParseAsciiSpec(s) == DecodeSpec(FindCharInGrid, s)
  {
    if |s| == 10 {
      TenBytesAgree(s);
    } else if |s| == 12 && s[3] == '-' && s[7] == '-' {
      TwelveBytesAgree(s);
    }
  }

  lemma SeparatorReadAsSymbol()
    ensures DecodeSymbols(FindCharInGrid, "FCJ-3F9827") == Err(InvalidCharacter('-'))
  {
    var s := "FCJ-3F9827";
    forall j | 0 <= j < 3 ensures FindCharInGrid(s[..3][j]).Ok? {
      assert j == 0 || j == 1 || j == 2;
    }
    FirstErrorAt(FindCharInGrid, s[..3], 3);
    DecodeRejected(FindCharInGrid, s, 3);
  }

  lemma StripNineSymbols()
    ensures Strip("FCJ-3F9827") == "FCJ3F9827"
  {
    StripSeparator("FCJ", "3F9827");
    assert "FCJ" + "-" + "3F9827" == "FCJ-3F9827";
    StripNoHyphen("FCJ");
    StripNoHyphen("3F9827");
    assert "FCJ" + "3F9827" == "FCJ3F9827";
  }

  lemma NineSymbolsTooShort()
    ensures DecodeSymbols(FindCharInGrid, "FCJ3F9827") == Err(InvalidLength(9))
  {
    var p := "FCJ3F9827";
    forall j | 0 <= j < 9 ensures FindCharInGrid(p[j]).Ok? {
      assert j == 0 || j == 1 || j == 2 || j == 3 || j == 4 || j == 5 || j == 6 || j == 7 || j == 8;
    }
    FirstErrorAt(FindCharInGrid, p, 9);
    DecodeShort(FindCharInGrid, p);
  }

  /** They do differ on errors: the ten-byte path reads a '-' as a symbol, so
      "FCJ-3F9827" is `InvalidCharacter('-')` there. The general decoding counts nine
      symbols and reports `InvalidLength(9)`. */
  lemma TenBytesWithSeparator()
    ensures ParseAsciiSpec("FCJ-3F9827") == Err(InvalidCharacter('-'))
    ensures DecodeSpec(FindCharInGrid, "FCJ-3F9827") == Err(InvalidLength(9))
  {
    SeparatorReadAsSymbol();
    StripNineSymbols();
    NineSymbolsTooShort();
  }

  /** A string with a character outside ASCII never decodes, whichever loop reads it: that
      character is a symbol the lookup rejects. */
  lemma NonAsciiNeverDecodes(s: string)
    requires !IsAscii(s)
    ensures DecodeSpec(FindCharInGrid, s).Err?
    ensures ParseDigipinSpec(s).Err?
  {
    if DecodeSpec(FindCharInGrid, s).Ok? {
      var i :| 0 <= i < |s| && s[i] as int >= 128;
      StripKeeps(s, i);
      DecodeOk(FindCharInGrid, s);
      assert false;
    }
  }

  lemma CodeIsAscii(lat: nat, lon: nat)
    ensures IsAscii(Code(lat, lon))
  {
    CodeShape(lat, lon);
    FindCharInGridExact();
  }

  /** Every code decodes, through the dispatch and the twelve-byte path, to its index pair. */
  lemma ParseCode(lat: nat, lon: nat)
    requires lat < Power && lon < Power
    ensures ParseDigipinSpec(Code(lat, lon)) == Ok(Indices(lat, lon))
  {
    CodeIsAscii(lat, lon);
    CodeShape(lat, lon);
    FindCharInGridExact();
    DecodeCode(FindCharInGrid, lat, lon);
    SymbolsHaveNoSeparator(lat, lon);
    StripNoHyphen(Symbols(lat, lon));
    assert Picked(Code(lat, lon)) == Symbols(lat, lon);
  }

  /** Whatever the decoder accepts is, up to its separators, the code of the pair it decodes
      to: the module's decoding is the exact inverse of `Code`. */
  lemma ParseExact(s: string)
    requires ParseDigipinSpec(s).Ok?
    ensures ParseDigipinSpec(s) == DecodeSpec(FindCharInGrid, s)
    ensures ParseDigipinSpec(s).value.lat < Power && ParseDigipinSpec(s).value.lon < Power
    ensures Strip(s) == Symbols(ParseDigipinSpec(s).value.lat, ParseDigipinSpec(s).value.lon)
  {
    if IsAscii(s) {
      FastPathsAgree(s);
    }
    FindCharInGridExact();
    DecodeExact(FindCharInGrid, s);
  }
}
