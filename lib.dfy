/** src/lib.rs: the older, self-contained crate root, which carries its own copy of the grid,
    the rectangle and the error type.

    - `find_char_in_grid` searches the grid row by row.
    - `get_coordinates_from_digipin` strips the separators and checks the length, in UTF-8
      bytes, before it looks at any character. It then narrows a bounding box one symbol at a
      time.
    - `get_digipin` narrows a box level by level. At each level it picks the row `3 - q` and the
      column `q'`, each capped at 3, where `q` and `q'` are the floored positions of the
      coordinate inside the current box. The subtraction is on `usize`; the encoder here is a
      release build, where it wraps around, so every position above 3 gives row 3. Beside it
      stand the intended row `3 - min(q, 3)` and the symbols it would pick.

    The float arithmetic is not modelled. The floored positions of each level are parameters of
    the encoder. The decoder's box after `k` symbols is the cell (row, column) of the
    `4^k`-by-`4^k` subdivision of the rectangle, so the decoder keeps those two indices. */
module Lib {
  import opened Errors
  import opened Constants
  import opened Digits

  // ---------------------------------------------------------------------------------------
  // Grid search

  /** `find_char_in_grid`: scan the rows, and within each row the columns, and return the first
      position holding `ch`. */
  method FindCharInGrid(ch: char) returns (r: Result<Cell>)
    ensures r == Locate(ch)
    ensures r.Ok? <==> IsGridSymbol(ch)
    ensures r.Ok? ==> InGrid(r.value) && GridAt(r.value.row, r.value.col) == ch
    ensures r.Err? ==> r == Err(InvalidCharacter(ch))
  {
    var row := 0;
    while row < 4
      invariant row <= 4
      invariant LocateFrom(ch, row, 0) == Locate(ch)
    {
      var col := 0;
      while col < 4
        invariant col <= 4
        invariant Locate(ch) == if col < 4 then LocateFrom(ch, row, col) else LocateFrom(ch, row + 1, 0)
      {
        if GridAt(row, col) == ch {
          return Ok(Cell(row, col));
        }
        col := col + 1;
      }
      row := row + 1;
    }
    return Err(InvalidCharacter(ch));
  }

  // ---------------------------------------------------------------------------------------
  // Decoding

  /** The number of bytes of `ch` in UTF-8. */
  function ByteLen(ch: char): (n: nat)
    ensures 1 <= n <= 4
    ensures n == 1 <==> ch as int < 128
  {
    if ch as int < 0x80 then 1
    else if ch as int < 0x800 then 2
    else if ch as int < 0x1_0000 then 3
    else 4
  }

  /** `String::len`: the length of `s` in UTF-8 bytes. */
  function Utf8Len(s: string): (n: nat)
    ensures n >= |s|
    ensures n == |s| <==> IsAscii(s)
  {
    if s == [] then 0 else Utf8Len(s[..|s| - 1]) + ByteLen(s[|s| - 1])
  }

  /** What `get_coordinates_from_digipin` decodes a string to. The separators are dropped. A
      byte length other than 10 is `InvalidLength(that length)`, whatever the characters are.
      Otherwise the first character outside the grid is `InvalidCharacter`, and ten grid symbols
      give the cell that their positions spell out. */
  function DecodeLengthFirst(s: string): Result<Indices> {
    var pin := Strip(s);
    if Utf8Len(pin) != 10 then Err(InvalidLength(Utf8Len(pin)))
    else
      var bad := FirstError(Locate, pin);
      if bad < |pin| then Err(InvalidCharacter(pin[bad]))
      else Ok(Indices(IndexOf(Rows(Locate, pin)), IndexOf(Cols(Locate, pin))))
  }

  /** `digipin.chars().filter(|&c| c != '-').collect()`. */
  method CollectSymbols(digipin: string) returns (pin: string)
    ensures pin == Strip(digipin)
  {
    pin := [];
    for i := 0 to |digipin|
      invariant pin == Strip(digipin[..i])
    {
      assert digipin[..i + 1] == digipin[..i] + [digipin[i]];
      StripAppend(digipin[..i], [digipin[i]]);
      StripSingle(digipin[i]);
      if digipin[i] != '-' {
        pin := pin + [digipin[i]];
      }
    }
    assert digipin[..|digipin|] == digipin;
  }

  /** `get_coordinates_from_digipin` at the index layer. */
  method GetCoordinatesFromDigipin(digipin: string) returns (r: Result<Indices>)
    ensures r == DecodeLengthFirst(digipin)
  {
    var pin := CollectSymbols(digipin);
    if Utf8Len(pin) != 10 {
      return Err(InvalidLength(Utf8Len(pin)));
    }
    var row: nat, col: nat := 0, 0;
    for i := 0 to |pin|
      invariant Accepted(Locate, pin, i, row, col)
    {
      var found := FindCharInGrid(pin[i]);
      if found.Err? {
        assert forall j | 0 <= j < i :: pin[..i][j] == pin[j];
        FirstErrorAt(Locate, pin, i);
        return Err(found.error);
      }
      Accept(Locate, pin, i, row, col);
      row, col := row * 4 + found.value.row, col * 4 + found.value.col;
    }
    assert pin[..|pin|] == pin;
    return Ok(Indices(row, col));
  }

  /** Grid symbols are single bytes. */
  lemma GridSymbolsAreAscii(p: string)
    requires FirstError(Locate, p) == |p|
    ensures IsAscii(p)
  {
    forall i | 0 <= i < |p| ensures p[i] as int < 128 {
      LocateFinds(p[i]);
    }
  }

  /** Wherever either decoder succeeds, this one and src/decode.rs's order of checks (over the
      same search) give the same indices: checking the length first changes which error is
      reported, never a result. */
  lemma LengthFirstAgrees(s: string)
    requires DecodeLengthFirst(s).Ok? || DecodeSpec(Locate, s).Ok?
    ensures DecodeLengthFirst(s) == DecodeSpec(Locate, s)
  {
    var pin := Strip(s);
    if DecodeLengthFirst(s).Ok? {
      GridSymbolsAreAscii(pin);
      DecodeTen(Locate, pin);
    } else {
      DecodeOk(Locate, s);
      assert pin[..10] == pin;
      GridSymbolsAreAscii(pin);
      DecodeTen(Locate, pin);
    }
  }

  /** Every code decodes to its own index pair. */
  lemma DecodeOfCode(lat: nat, lon: nat)
    requires lat < Power && lon < Power
    ensures DecodeLengthFirst(Code(lat, lon)) == Ok(Indices(lat, lon))
  {
    LocateInvertsGrid();
    DecodeCode(Locate, lat, lon);
    LengthFirstAgrees(Code(lat, lon));
  }

  /** Whatever decodes is, without its separators, the code of the pair it decodes to. That
      pair is below `POWER`, and its code decodes to it again. */
  lemma CodeOfDecode(s: string)
    requires DecodeLengthFirst(s).Ok?
    ensures DecodeLengthFirst(s).value.lat < Power && DecodeLengthFirst(s).value.lon < Power
    ensures Strip(s) == Symbols(DecodeLengthFirst(s).value.lat, DecodeLengthFirst(s).value.lon)
    ensures DecodeLengthFirst(Code(DecodeLengthFirst(s).value.lat, DecodeLengthFirst(s).value.lon)) ==
            DecodeLengthFirst(s)
  {
    LengthFirstAgrees(s);
    assert ExactInverse(Locate);
    DecodeExact(Locate, s);
    DecodeOfCode(DecodeLengthFirst(s).value.lat, DecodeLengthFirst(s).value.lon);
  }

  /** The search finds a grid symbol at its position. */
  lemma Found(ch: char, r: nat, c: nat)
    requires r < 4 && c < 4 && GridAt(r, c) == ch
    ensures Locate(ch) == Ok(Cell(r, c))
  {
    LocateInvertsGrid();
  }

  /** Where the search finds the characters of the test strings. */
  lemma TestCharacters()
    ensures Locate('F') == Ok(Cell(0, 0)) && Locate('C') == Ok(Cell(0, 1))
    ensures Locate('9') == Ok(Cell(0, 2)) && Locate('8') == Ok(Cell(0, 3))
    ensures Locate('J') == Ok(Cell(1, 0)) && Locate('3') == Ok(Cell(1, 1))
    ensures Locate('2') == Ok(Cell(1, 2)) && Locate('7') == Ok(Cell(1, 3))
    ensures Locate('Z').Err? && Locate('\U{E9}').Err?
  {
    Found('F', 0, 0);
    Found('C', 0, 1);
    Found('9', 0, 2);
    Found('8', 0, 3);
    Found('J', 1, 0);
    Found('3', 1, 1);
    Found('2', 1, 2);
    Found('7', 1, 3);
    LocateFinds('Z');
    LocateFinds('\U{E9}');
  }

  lemma ShortStringIsAscii()
    ensures IsAscii("FCJ3Z")
  {
    var p := "FCJ3Z";
    forall j | 0 <= j < 5 ensures p[j] as int < 128 {
      assert j == 0 || j == 1 || j == 2 || j == 3 || j == 4;
    }
  }

  lemma FoundBeforeZAlone()
    ensures IsAscii("FCJ3Z") && FirstError(Locate, "FCJ3") == 4
  {
    var p := "FCJ3Z";
    ShortStringIsAscii();
    TestCharacters();
    forall j | 0 <= j < 4 ensures Locate(p[..4][j]).Ok? {
      assert j == 0 || j == 1 || j == 2 || j == 3;
    }
    FirstErrorAt(Locate, p[..4], 4);
  }

  /** The length is checked before any character: "FCJ3Z" is `InvalidLength(5)` here, while
      src/decode.rs's loop meets the 'Z' first. */
  lemma LengthBeforeCharacters()
    ensures DecodeLengthFirst("FCJ3Z") == Err(InvalidLength(5))
    ensures DecodeSpec(Locate, "FCJ3Z") == Err(InvalidCharacter('Z'))
  {
    var p := "FCJ3Z";
    StripNoHyphen(p);
    FoundBeforeZAlone();
    assert p[..4] == "FCJ3";
    TestCharacters();
    DecodeRejected(Locate, p, 4);
  }

  lemma FoundBeforeAccent()
    ensures IsAscii("FCJ3F9827") && FirstError(Locate, "FCJ3F9827") == 9
  {
    var q := "FCJ3F9827";
    forall j | 0 <= j < 9 ensures q[j] as int < 128 {
      assert j == 0 || j == 1 || j == 2 || j == 3 || j == 4 || j == 5 || j == 6 || j == 7 || j == 8;
    }
    TestCharacters();
    forall j | 0 <= j < 9 ensures Locate(q[j]).Ok? {
      assert j == 0 || j == 1 || j == 2 || j == 3 || j == 4 || j == 5 || j == 6 || j == 7 || j == 8;
    }
    FirstErrorAt(Locate, q, 9);
  }

  /** The length counts bytes: nine symbols and a two-byte 'é' are eleven bytes, so the 'é' is
      reported as `InvalidLength(11)`, not as an invalid character. */
  lemma LengthCountsBytes()
    ensures DecodeLengthFirst("FCJ3F9827" + ['\U{E9}']) == Err(InvalidLength(11))
    ensures DecodeSpec(Locate, "FCJ3F9827" + ['\U{E9}']) == Err(InvalidCharacter('\U{E9}'))
  {
    var p := "FCJ3F9827" + ['\U{E9}'];
    StripNoHyphen(p);
    assert p[..9] == "FCJ3F9827";
    FoundBeforeAccent();
    assert Utf8Len(p) == 11;
    TestCharacters();
    DecodeRejected(Locate, p, 9);
  }

  /** The test `test_invalid_digipin`, first half: "FCJ-3F9" is six bytes long. */
  lemma TooFewSymbols()
    ensures DecodeLengthFirst("FCJ-3F9") == Err(InvalidLength(6))
  {
    StripShort();
    var p := "FCJ3F9";
    forall j | 0 <= j < 6 ensures p[j] as int < 128 {
      assert j == 0 || j == 1 || j == 2 || j == 3 || j == 4 || j == 5;
    }
  }

  lemma TestStringsAreAscii()
    ensures IsAscii("FCJ3F982Z3") && IsAscii("FCJ3F98273")
  {
    var p, q := "FCJ3F982Z3", "FCJ3F98273";
    forall j | 0 <= j < 10 ensures p[j] as int < 128 && q[j] as int < 128 {
      assert j == 0 || j == 1 || j == 2 || j == 3 || j == 4 || j == 5 || j == 6 || j == 7 || j == 8 || j == 9;
    }
  }

  lemma EightFoundBeforeZ()
    ensures forall j | 0 <= j < 8 :: Locate("FCJ3F982Z3"[j]).Ok?
  {
    var p := "FCJ3F982Z3";
    TestCharacters();
    forall j | 0 <= j < 8 ensures Locate(p[j]).Ok? {
      assert j == 0 || j == 1 || j == 2 || j == 3 || j == 4 || j == 5 || j == 6 || j == 7;
    }
  }

  lemma FoundBeforeZ()
    ensures FirstError(Locate, "FCJ3F982Z3") == 8
  {
    TestCharacters();
    EightFoundBeforeZ();
    FirstErrorAt(Locate, "FCJ3F982Z3", 8);
  }

  lemma TenFound()
    ensures forall j | 0 <= j < 10 :: Locate("FCJ3F98273"[j]).Ok?
  {
    var p := "FCJ3F98273";
    TestCharacters();
    forall j | 0 <= j < 10 ensures Locate(p[j]).Ok? {
      assert j == 0 || j == 1 || j == 2 || j == 3 || j == 4 || j == 5 || j == 6 || j == 7 || j == 8 || j == 9;
    }
  }

  lemma FoundAllTen()
    ensures FirstError(Locate, "FCJ3F98273") == 10
  {
    TenFound();
    FirstErrorAt(Locate, "FCJ3F98273", 10);
  }

  /** The test `test_invalid_digipin`, second half: the 'Z' of "FCJ-3F9-82Z3" is rejected. */
  lemma RejectsZ()
    ensures DecodeLengthFirst("FCJ-3F9-82Z3") == Err(InvalidCharacter('Z'))
  {
    StripWithZ();
    TestStringsAreAscii();
    FoundBeforeZ();
  }

  /** The test `test_digipin_with_hyphens`: "FCJ-3F9-8273" and "FCJ3F98273" decode alike, and
      successfully. */
  lemma HyphensOptional()
    ensures DecodeLengthFirst("FCJ-3F9-8273") == DecodeLengthFirst("FCJ3F98273")
    ensures DecodeLengthFirst("FCJ3F98273").Ok?
  {
    StripWithHyphens();
    StripNoHyphen("FCJ3F98273");
    SameSymbolsSameResult("FCJ-3F9-8273", "FCJ3F98273");
    PlainTestDecodes();
  }

  /** Only the symbols that survive the filter matter. */
  lemma SameSymbolsSameResult(s: string, t: string)
    requires Strip(s) == Strip(t)
    ensures DecodeLengthFirst(s) == DecodeLengthFirst(t)
  {
  }

  lemma PlainTestDecodes()
    ensures DecodeLengthFirst("FCJ3F98273").Ok?
  {
    StripNoHyphen("FCJ3F98273");
    TestStringsAreAscii();
    FoundAllTen();
  }

  // ---------------------------------------------------------------------------------------
  // Encoding

  /** `x < lo || x > hi`, the range check of `get_digipin`. Both comparisons are false for
      NaN. */
  predicate Outside(x: F64, lo: real, hi: real) {
    Lt(x, Finite(lo)) || Lt(Finite(hi), x)
  }

  function Min(a: nat, b: nat): nat {
    if a < b then a else b
  }

  /** One more than the largest `usize`. */
  const UsizeLimit: nat := 0x1_0000_0000_0000_0000

  /** A `usize`. The cast `floor(...) as usize` saturates, so every floored position is one. */
  type Usize = q: nat | q < UsizeLimit

  /** The row of one level as written, `(3 - q).min(3)`, where `q` is the latitude's floored
      position inside the box. The subtraction is on `usize`, and a release build wraps it
      around, so every position above 3 gives row 3. */
  function LevelRowAsWritten(q: Usize): (row: nat)
    ensures row < 4
    ensures row == if q <= 3 then 3 - q else 3
  {
    Min(((3 - q) % UsizeLimit) as nat, 3)
  }

  /** The row of one level as intended: the latitude's position counted from the north edge,
      with the box's north edge itself in the northernmost row. */
  function LevelRow(q: nat): nat {
    3 - Min(q, 3)
  }

  /** The column of one level, `q.min(3)`. */
  function LevelCol(q: nat): nat {
    Min(q, 3)
  }

  /** The rows that `get_digipin` picks, level by level. */
  function LevelRows(latQ: seq<Usize>): seq<nat> {
    seq(|latQ|, k requires 0 <= k < |latQ| => LevelRowAsWritten(latQ[k]))
  }

  /** The rows that the levels would pick with the intended row. */
  function IntendedRows(latQ: seq<nat>): seq<nat> {
    seq(|latQ|, k requires 0 <= k < |latQ| => LevelRow(latQ[k]))
  }

  function LevelCols(lonQ: seq<nat>): seq<nat> {
    seq(|lonQ|, k requires 0 <= k < |lonQ| => LevelCol(lonQ[k]))
  }

  /** The ten grid symbols at the given rows and columns. */
  function PickedSymbols(rows: seq<nat>, cols: seq<nat>): string
    requires |rows| == 10 && |cols| == 10
    requires forall k | 0 <= k < 10 :: rows[k] < 4 && cols[k] < 4
  {
    seq(10, k requires 0 <= k < 10 => GridAt(rows[k], cols[k]))
  }

  /** The ten symbols that `get_digipin` writes. */
  function LevelSymbols(latQ: seq<Usize>, lonQ: seq<nat>): string
    requires |latQ| == 10 && |lonQ| == 10
  {
    PickedSymbols(LevelRows(latQ), LevelCols(lonQ))
  }

  /** The ten symbols with the intended row. */
  function IntendedSymbols(latQ: seq<nat>, lonQ: seq<nat>): string
    requires |latQ| == 10 && |lonQ| == 10
  {
    PickedSymbols(IntendedRows(latQ), LevelCols(lonQ))
  }

  /** `get_digipin(latitude, longitude)`, where `latQ[k]` and `lonQ[k]` are the floored
      positions at level `k + 1`. A coordinate outside the rectangle is rejected, latitude
      first. Otherwise the result is the ten symbols it picks with the row as written, grouped
      3-3-4. */
  method GetDigipin(latitude: F64, longitude: F64, latQ: seq<Usize>, lonQ: seq<nat>) returns (r: Result<string>)
    requires |latQ| == 10 && |lonQ| == 10
    ensures Outside(latitude, BOUNDS.minLat, BOUNDS.maxLat) ==> r == Err(LatitudeOutOfRange(latitude))
    ensures !Outside(latitude, BOUNDS.minLat, BOUNDS.maxLat) && Outside(longitude, BOUNDS.minLon, BOUNDS.maxLon) ==>
              r == Err(LongitudeOutOfRange(longitude))
    ensures !Outside(latitude, BOUNDS.minLat, BOUNDS.maxLat) && !Outside(longitude, BOUNDS.minLon, BOUNDS.maxLon) ==>
              r == Ok(Format(LevelSymbols(latQ, lonQ)))
  {
    if Lt(latitude, Finite(BOUNDS.minLat)) || Lt(Finite(BOUNDS.maxLat), latitude) {
      return Err(LatitudeOutOfRange(latitude));
    }
    if Lt(longitude, Finite(BOUNDS.minLon)) || Lt(Finite(BOUNDS.maxLon), longitude) {
      return Err(LongitudeOutOfRange(longitude));
    }
    var digipin := WriteLevels(latQ, lonQ);
    return Ok(digipin);
  }

  /** The level loop of `get_digipin`: one symbol per level, a '-' after levels 3 and 6. */
  method WriteLevels(latQ: seq<Usize>, lonQ: seq<nat>) returns (digipin: string)
    requires |latQ| == 10 && |lonQ| == 10
    ensures digipin == Format(LevelSymbols(latQ, lonQ))
  {
    ghost var syms := LevelSymbols(latQ, lonQ);
    digipin := "";
    for level := 1 to 11
      invariant digipin == Partial(syms, level - 1)
    {
      var row := LevelRowAsWritten(latQ[level - 1]);
      var col := LevelCol(lonQ[level - 1]);
      assert GridAt(row, col) == syms[level - 1];
      digipin := digipin + [GridAt(row, col)];
      if level == 3 || level == 6 {
        digipin := digipin + "-";
      }
      PartialStep(syms, level - 1);
    }
    PartialEnds(syms);
  }

  /** Ten symbols picked at rows and columns on the grid are the code of the cell whose digits
      are those rows and columns. */
  lemma PickedAreCode(rows: seq<nat>, cols: seq<nat>)
    requires |rows| == 10 && |cols| == 10
    requires forall k | 0 <= k < 10 :: rows[k] < 4 && cols[k] < 4
    ensures IndexOf(rows) < Power && IndexOf(cols) < Power
    ensures Format(PickedSymbols(rows, cols)) == Code(IndexOf(rows), IndexOf(cols))
  {
    PowerIsTenDigits();
    DigitsOfIndex(rows);
    DigitsOfIndex(cols);
    forall k | 0 <= k < 10 ensures PickedSymbols(rows, cols)[k] == Symbols(IndexOf(rows), IndexOf(cols))[k] {
      DigitIsDigitsOf(IndexOf(rows), k);
      DigitIsDigitsOf(IndexOf(cols), k);
    }
    assert PickedSymbols(rows, cols) == Symbols(IndexOf(rows), IndexOf(cols));
  }

  /** The encoder's output is the code of the cell whose row and column digits are the rows and
      columns it picked level by level. */
  lemma LevelSymbolsAreCode(latQ: seq<Usize>, lonQ: seq<nat>)
    requires |latQ| == 10 && |lonQ| == 10
    ensures IndexOf(LevelRows(latQ)) < Power && IndexOf(LevelCols(lonQ)) < Power
    ensures Format(LevelSymbols(latQ, lonQ)) == Code(IndexOf(LevelRows(latQ)), IndexOf(LevelCols(lonQ)))
  {
    PickedAreCode(LevelRows(latQ), LevelCols(lonQ));
  }

  /** `test_encode_decode_roundtrip` at the index layer: decoding what the encoder writes gives
      back the cell that its levels picked. */
  lemma EncodeThenDecode(latQ: seq<Usize>, lonQ: seq<nat>)
    requires |latQ| == 10 && |lonQ| == 10
    ensures DecodeLengthFirst(Format(LevelSymbols(latQ, lonQ))) ==
            Ok(Indices(IndexOf(LevelRows(latQ)), IndexOf(LevelCols(lonQ))))
  {
    LevelSymbolsAreCode(latQ, lonQ);
    DecodeOfCode(IndexOf(LevelRows(latQ)), IndexOf(LevelCols(lonQ)));
  }

  /** The test `test_invalid_coordinates`: latitude 50.0 fails the latitude check; latitude 28.0
      passes it, and longitude 120.0 fails the longitude check. */
  lemma InvalidCoordinates()
    ensures Outside(Finite(50.0), BOUNDS.minLat, BOUNDS.maxLat)
    ensures !Outside(Finite(28.0), BOUNDS.minLat, BOUNDS.maxLat) && Outside(Finite(120.0), BOUNDS.minLon, BOUNDS.maxLon)
  {
  }

  /** This range check and the inclusive `contains` of src/encode.rs agree on every number. Only
      NaN tells them apart: this check lets it through, `contains` rejects it. */
  lemma RangeChecksDifferOnNaN(x: F64, lo: real, hi: real)
    ensures x != NaN ==> (Outside(x, lo, hi) <==> !InClosed(x, lo, hi))
    ensures !Outside(NaN, lo, hi) && !InClosed(NaN, lo, hi)
  {
    if x != NaN {
      OutsideMeansStrictlyBeyond(x, lo, hi);
    }
  }

  /** The row as written and as intended agree wherever `3 - q` does not underflow. */
  lemma LevelRowAgrees(q: nat)
    requires q <= 3
    ensures LevelRowAsWritten(q) == LevelRow(q)
  {
  }

  /** As written, the rows are not ordered by latitude. Latitude 38.5 lies on the north edge of
      the rectangle, and its first-level position is (38.5 - 2.5) / ((38.5 - 2.5) / 4) = 4. The
      subtraction `3 - 4` wraps around and `.min(3)` then gives 3, the southernmost row.
      Position 3, just below the edge, gives the northernmost row 0. */
  lemma NorthEdgeRowAsWritten()
    ensures (BOUNDS.maxLat - BOUNDS.minLat) / ((BOUNDS.maxLat - BOUNDS.minLat) / 4.0) == 4.0
    ensures LevelRowAsWritten(3) == 0 && LevelRowAsWritten(4) == 3
  {
  }

  /** As intended, a higher position is never a more southern row, every row is on the grid,
      and the north edge is in the northernmost row. */
  lemma LevelRowOrdered(q1: nat, q2: nat)
    requires q1 <= q2
    ensures LevelRow(q2) <= LevelRow(q1) < 4
    ensures LevelRow(4) == 0
  {
  }

  /** With the intended row, too, the encoder writes the code of the cell it picked, so it
      decodes to that cell. */
  lemma IntendedSymbolsAreCode(latQ: seq<nat>, lonQ: seq<nat>)
    requires |latQ| == 10 && |lonQ| == 10
    ensures IndexOf(IntendedRows(latQ)) < Power && IndexOf(LevelCols(lonQ)) < Power
    ensures Format(IntendedSymbols(latQ, lonQ)) == Code(IndexOf(IntendedRows(latQ)), IndexOf(LevelCols(lonQ)))
    ensures DecodeLengthFirst(Format(IntendedSymbols(latQ, lonQ))) ==
            Ok(Indices(IndexOf(IntendedRows(latQ)), IndexOf(LevelCols(lonQ))))
  {
    PickedAreCode(IntendedRows(latQ), LevelCols(lonQ));
    DecodeOfCode(IndexOf(IntendedRows(latQ)), IndexOf(LevelCols(lonQ)));
  }

  /** The encoder as written and as intended write the same string exactly when no level's
      latitude position is above 3. */
  lemma WrittenIsIntendedBelowEdge(latQ: seq<Usize>, lonQ: seq<nat>)
    requires |latQ| == 10 && |lonQ| == 10
    ensures LevelSymbols(latQ, lonQ) == IntendedSymbols(latQ, lonQ) <==>
            forall k | 0 <= k < 10 :: latQ[k] <= 3
  {
    if forall k | 0 <= k < 10 :: latQ[k] <= 3 {
      assert LevelRows(latQ) == IntendedRows(latQ);
    } else {
      var k :| 0 <= k < 10 && latQ[k] > 3;
      GridSymbolsDistinct();
      assert LevelSymbols(latQ, lonQ)[k] != IntendedSymbols(latQ, lonQ)[k];
    }
  }

  /** The north-east corner of the rectangle, latitude 38.5 and longitude 99.5. As written,
      the latitude's floored position at level k is 4^k: the first level's is 4, and each row 3
      that the wrapped subtraction picks moves the box to the south edge while the latitude
      stays on the north edge. With the intended row, each level picks row 0, the box stays on
      the north edge, and the position is 4 at every level. The longitude's position is 4 at
      every level either way. As written, the encoder then writes the south-east corner's code.
      With the intended row it writes the north-east corner's, which is also what src/encode.rs
      writes there. */
  const NorthEastLatQ: seq<Usize> := [4, 16, 64, 256, 1024, 4096, 16384, 65536, 262144, 1048576]
  const EdgeQ: seq<nat> := [4, 4, 4, 4, 4, 4, 4, 4, 4, 4]

  lemma NorthEastSymbolsAsWritten()
    ensures LevelSymbols(NorthEastLatQ, EdgeQ) == "TTTTTTTTTT"
  {
    forall k | 0 <= k < 10 ensures LevelSymbols(NorthEastLatQ, EdgeQ)[k] == 'T' {
      assert NorthEastLatQ[k] > 3 && EdgeQ[k] == 4;
    }
  }

  lemma NorthEastSymbolsIntended()
    ensures IntendedSymbols(EdgeQ, EdgeQ) == "8888888888"
  {
    forall k | 0 <= k < 10 ensures IntendedSymbols(EdgeQ, EdgeQ)[k] == '8' {
      assert EdgeQ[k] == 4;
    }
  }

  lemma NorthEastCornerAsWritten()
    ensures Format(LevelSymbols(NorthEastLatQ, EdgeQ)) == "TTT-TTT-TTTT"
    ensures Format(IntendedSymbols(EdgeQ, EdgeQ)) == "888-888-8888"
  {
    NorthEastSymbolsAsWritten();
    NorthEastSymbolsIntended();
  }
}
