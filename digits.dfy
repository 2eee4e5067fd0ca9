/** The integer layer every encoder and decoder of the crate shares. A coordinate becomes an
    index below `POWER` (2^20) along each axis. The index is ten base-4 digits, most significant
    first, and digit k of the pair (latitude index, longitude index) selects the grid symbol
    `DIGIPIN_GRID[lat digit][lon digit]`. The ten symbols are written in groups of 3, 3 and 4
    joined by '-'. Decoding forgets every '-', looks each remaining symbol up and rebuilds the two
    indices digit by digit.

    This module defines that layer once, as reference functions:
    - `Code` builds the formatted code of an index pair;
    - `DecodeSpec` is the decoding procedure, given the symbol lookup of one decoder;
    - the lemmas relate the two (round trip, exactness, shape). */
module Digits {
  import opened Errors
  import opened Constants

  /** `x >> s` on an unsigned index. */
  function Shr(x: nat, s: nat): nat {
    if s == 0 then x else Shr(x / 2, s - 1)
  }

  /** Digit `k` of a ten-digit index, counted from the most significant:
      `(idx >> (18 - 2 * k)) & 3`. */
  function Digit(idx: nat, k: nat): nat
    requires k < 10
  {
    Shr(idx, 18 - 2 * k) % 4
  }

  /** The ten grid symbols of an index pair, most significant level first. */
  function Symbols(lat: nat, lon: nat): string {
    seq(10, k requires 0 <= k < 10 => GridAt(Digit(lat, k), Digit(lon, k)))
  }

  /** The separator written after the `n`-th symbol: one after the third and one after the
      sixth. */
  function Separator(n: nat): string {
    if n == 3 || n == 6 then "-" else ""
  }

  /** The ten symbols as a DIGIPIN is written: three, '-', three, '-', four. */
  function Format(syms: string): string
    requires |syms| == 10
  {
    syms[..3] + "-" + syms[3..6] + "-" + syms[6..]
  }

  /** The text an encoder has built after writing the first `n` symbols, each followed by its
      separator. */
  function Partial(syms: string, n: nat): string
    requires n <= |syms|
  {
    if n <= 3 then syms[..n] + Separator(n)
    else if n <= 6 then syms[..3] + "-" + syms[3..n] + Separator(n)
    else syms[..3] + "-" + syms[3..6] + "-" + syms[6..n]
  }

  /** The formatted DIGIPIN of an index pair, e.g. "FCJ-3F9-8273". */
  function Code(lat: nat, lon: nat): string {
    Format(Symbols(lat, lon))
  }

  /** `idx.min(POWER - 1)`: the index of a coordinate lying on the rectangle's far edge is pulled
      back into the last cell. */
  function Clamp(raw: nat): (idx: nat)
    ensures idx < Power && idx <= raw
    ensures idx == raw || idx == Power - 1
  {
    if raw < Power then raw else Power - 1
  }

  /** Horner's rule over base-4 digits, most significant first: the decoders' step
      `idx = (idx << 2) | digit`. */
  function IndexOf(ds: seq<nat>): (idx: nat)
    ensures (forall i | 0 <= i < |ds| :: ds[i] < 4) ==> idx < Pow4(|ds|)
  {
    if ds == [] then 0 else IndexOf(ds[..|ds| - 1]) * 4 + ds[|ds| - 1]
  }

  /** The string with every '-' removed: `chars().filter(|&c| c != '-')`. */
  function Strip(s: string): (p: string)
    ensures |p| <= |s|
  {
    if s == [] then []
    else Strip(s[..|s| - 1]) + (if s[|s| - 1] == '-' then [] else [s[|s| - 1]])
  }

  /** `str::is_ascii`: every character is a single byte. */
  predicate IsAscii(s: string) {
    forall i | 0 <= i < |s| :: s[i] as int < 128
  }

  /** The pair of indices a decoder produces. */
  datatype Indices = Indices(lat: nat, lon: nat)

  /** The position of the first symbol of `p` that the lookup `find` rejects, or `|p|` when
      there is none. */
  function FirstError(find: char -> Result<Cell>, p: string): (i: nat)
    ensures i <= |p|
    ensures forall j | 0 <= j < i :: find(p[j]).Ok?
    ensures i < |p| ==> find(p[i]).Err?
  {
    if p == [] then 0
    else if find(p[0]).Err? then 0
    else 1 + FirstError(find, p[1..])
  }

  /** The row (or the column) that `find` gives a symbol, 0 for a rejected one. */
  function RowOf(find: char -> Result<Cell>, ch: char): nat {
    if find(ch).Ok? then find(ch).value.row else 0
  }

  function ColOf(find: char -> Result<Cell>, ch: char): nat {
    if find(ch).Ok? then find(ch).value.col else 0
  }

  function Rows(find: char -> Result<Cell>, p: string): seq<nat> {
    seq(|p|, i requires 0 <= i < |p| => RowOf(find, p[i]))
  }

  function Cols(find: char -> Result<Cell>, p: string): seq<nat> {
    seq(|p|, i requires 0 <= i < |p| => ColOf(find, p[i]))
  }

  /** The decoding procedure, for a decoder whose symbol lookup is `find`, on a string `p` that
      holds no separators. It takes the symbols one at a time, up to ten of them:
      - a symbol that `find` rejects stops decoding with that error;
      - running out of symbols before the tenth is `InvalidLength(count so far)`;
      - an eleventh symbol after ten good ones is `InvalidLength(11)`;
      - otherwise both indices are rebuilt from the ten positions. */
  function DecodeSymbols(find: char -> Result<Cell>, p: string): Result<Indices> {
    var n := if |p| < 10 then |p| else 10;
    var bad := FirstError(find, p[..n]);
    if bad < n then Err(find(p[bad]).error)
    else if |p| < 10 then Err(InvalidLength(|p|))
    else if |p| > 10 then Err(InvalidLength(11))
    else Ok(Indices(IndexOf(Rows(find, p)), IndexOf(Cols(find, p))))
  }

  /** Decoding a DIGIPIN as typed by a user: separators anywhere are ignored. */
  function DecodeSpec(find: char -> Result<Cell>, s: string): Result<Indices> {
    DecodeSymbols(find, Strip(s))
  }

  /** `find` sends every grid symbol to its own position. */
  ghost predicate InvertsGrid(find: char -> Result<Cell>) {
    forall r, c | 0 <= r < 4 && 0 <= c < 4 :: find(GridAt(r, c)) == Ok(Cell(r, c))
  }

  /** `find` only ever answers with a grid position. */
  ghost predicate CellsInGrid(find: char -> Result<Cell>) {
    forall ch :: find(ch).Ok? ==> InGrid(find(ch).value)
  }

  /** `find` accepts nothing but the grid symbols themselves. */
  ghost predicate ExactInverse(find: char -> Result<Cell>) {
    forall ch :: find(ch).Ok? ==>
      InGrid(find(ch).value) && GridAt(find(ch).value.row, find(ch).value.col) == ch
  }

  /** A reference search of the grid, row by row and, within a row, column by column, from
      cell (`row`, `col`) on. */
  function LocateFrom(ch: char, row: nat, col: nat): (r: Result<Cell>)
    requires row <= 4 && col < 4
    ensures r.Ok? ==> InGrid(r.value) && GridAt(r.value.row, r.value.col) == ch
    ensures r.Err? ==> r == Err(InvalidCharacter(ch))
    ensures r.Err? ==> forall r2, c2 | row <= r2 < 4 && 0 <= c2 < 4 && (r2 > row || c2 >= col) ::
                         GridAt(r2, c2) != ch
    decreases 4 - row, 4 - col
  {
    if row == 4 then Err(InvalidCharacter(ch))
    else if GridAt(row, col) == ch then Ok(Cell(row, col))
    else if col == 3 then LocateFrom(ch, row + 1, 0)
    else LocateFrom(ch, row, col + 1)
  }

  /** The position of `ch` in the grid, found by searching the grid itself. */
  function Locate(ch: char): (r: Result<Cell>)
    ensures r.Ok? <==> IsGridSymbol(ch)
    ensures r.Ok? ==> InGrid(r.value) && GridAt(r.value.row, r.value.col) == ch
    ensures r.Err? ==> r == Err(InvalidCharacter(ch))
  {
    LocateFrom(ch, 0, 0)
  }

  /** The sixteen grid symbols, row by row. */
  const GridSymbols: string := "FC98J327K456LMPT"

  /** The search finds exactly the sixteen symbols, and all of them are ASCII. */
  lemma LocateFinds(ch: char)
    ensures Locate(ch).Ok? <==> ch in GridSymbols
    ensures ch in GridSymbols ==> ch as int < 128
  {
    if ch in GridSymbols {
      var k :| 0 <= k < 16 && GridSymbols[k] == ch;
      assert k == 0 || k == 1 || k == 2 || k == 3 || k == 4 || k == 5 || k == 6 || k == 7 ||
             k == 8 || k == 9 || k == 10 || k == 11 || k == 12 || k == 13 || k == 14 || k == 15;
      assert GridAt(k / 4, k % 4) == ch;
    } else {
      forall r, c | 0 <= r < 4 && 0 <= c < 4 ensures GridAt(r, c) != ch {
        assert r == 0 || r == 1 || r == 2 || r == 3;
        assert c == 0 || c == 1 || c == 2 || c == 3;
        assert GridAt(r, c) == GridSymbols[4 * r + c];
      }
    }
  }

  // ---------------------------------------------------------------------------------------
  // Digits and indices

  lemma ShrByTwo(x: nat, s: nat)
    ensures Shr(x, s + 2) == Shr(x / 4, s)
  {
    assert Shr(x, s + 2) == Shr(x / 2 / 2, s);
    assert x / 2 / 2 == x / 4;
  }

  /** The `n` base-4 digits of `x`, most significant first. */
  function DigitsOf(x: nat, n: nat): seq<nat> {
    seq(n, k requires 0 <= k < n => Shr(x, 2 * (n - 1 - k)) % 4)
  }

  /** Dropping the last digit is dividing by four. */
  lemma DigitsOfSnoc(x: nat, n: nat)
    requires n > 0
    ensures DigitsOf(x, n) == DigitsOf(x / 4, n - 1) + [x % 4]
  {
    var whole, split := DigitsOf(x, n), DigitsOf(x / 4, n - 1) + [x % 4];
    forall k | 0 <= k < n ensures whole[k] == split[k] {
      if k < n - 1 {
        assert 2 * (n - 1 - k) == 2 * (n - 2 - k) + 2;
        ShrByTwo(x, 2 * (n - 2 - k));
        assert whole[k] == Shr(x, 2 * (n - 2 - k) + 2) % 4;
      } else {
        assert whole[k] == Shr(x, 0) % 4;
      }
    }
    assert whole == split;
  }

  /** Reading the digits of an index back gives the index. */
  lemma {:induction false} IndexOfDigits(x: nat, n: nat)
    requires x < Pow4(n)
    ensures IndexOf(DigitsOf(x, n)) == x
  {
    if n > 0 {
      DigitsOfSnoc(x, n);
      var ds := DigitsOf(x, n);
      assert ds[..n - 1] == DigitsOf(x / 4, n - 1);
      IndexOfDigits(x / 4, n - 1);
    }
  }

  /** Writing out the digits of a rebuilt index gives the digits it was rebuilt from. */
  lemma {:induction false} DigitsOfIndex(ds: seq<nat>)
    requires forall i | 0 <= i < |ds| :: ds[i] < 4
    ensures DigitsOf(IndexOf(ds), |ds|) == ds
  {
    if ds != [] {
      var n := |ds|;
      var init := ds[..n - 1];
      DigitsOfIndex(init);
      var x := IndexOf(ds);
      assert x == IndexOf(init) * 4 + ds[n - 1];
      assert x / 4 == IndexOf(init) && x % 4 == ds[n - 1];
      DigitsOfSnoc(x, n);
    }
  }

  /** The encoders' `Digit` is digit `k` of the ten-digit expansion. */
  lemma DigitIsDigitsOf(x: nat, k: nat)
    requires k < 10
    ensures Digit(x, k) == DigitsOf(x, 10)[k]
  {
    assert 18 - 2 * k == 2 * (10 - 1 - k);
  }

  // ---------------------------------------------------------------------------------------
  // Separators

  lemma {:induction false} StripAppend(a: string, b: string)
    ensures Strip(a + b) == Strip(a) + Strip(b)
  {
    if b == [] {
      assert a + b == a;
    } else {
      var init := b[..|b| - 1];
      assert (a + b)[..|a + b| - 1] == a + init;
      StripAppend(a, init);
    }
  }

  /** No '-' survives `Strip`. */
  lemma {:induction false} StripRemovesSeparators(s: string)
    ensures '-' !in Strip(s)
  {
    if s != [] {
      StripRemovesSeparators(s[..|s| - 1]);
    }
  }

  lemma {:induction false} StripNoHyphen(s: string)
    requires '-' !in s
    ensures Strip(s) == s
  {
    if s != [] {
      StripNoHyphen(s[..|s| - 1]);
    }
  }

  /** A string that loses nothing when its separators are removed had none. */
  lemma {:induction false} StripKeepsLength(s: string)
    requires |Strip(s)| == |s|
    ensures Strip(s) == s
  {
    if s != [] {
      var init := s[..|s| - 1];
      assert |Strip(init)| <= |init|;
      StripKeepsLength(init);
    }
  }

  /** Every symbol other than '-' survives `Strip`, at the position that counts the symbols
      before it. */
  lemma StripKeeps(s: string, i: nat)
    requires i < |s| && s[i] != '-'
    ensures |Strip(s[..i])| < |Strip(s)| && Strip(s)[|Strip(s[..i])|] == s[i]
  {
    assert s == s[..i] + [s[i]] + s[i + 1..];
    StripAppend(s[..i] + [s[i]], s[i + 1..]);
    StripAppend(s[..i], [s[i]]);
    assert Strip([s[i]]) == [s[i]] by {
      assert [s[i]][..0] == [];
    }
  }

  lemma GridHasNoSeparator(r: nat, c: nat)
    requires r < 4 && c < 4
    ensures GridAt(r, c) != '-'
  {
    assert r == 0 || r == 1 || r == 2 || r == 3;
  }

  lemma SymbolsHaveNoSeparator(lat: nat, lon: nat)
    ensures '-' !in Symbols(lat, lon)
  {
    forall k | 0 <= k < 10 ensures Symbols(lat, lon)[k] != '-' {
      GridHasNoSeparator(Digit(lat, k), Digit(lon, k));
    }
  }

  lemma StripSingle(x: char)
    ensures Strip([x]) == if x == '-' then [] else [x]
  {
    assert [x][..0] == [];
  }

  /** A separator between two strings vanishes. */
  lemma StripSeparator(a: string, b: string)
    ensures Strip(a + "-" + b) == Strip(a) + Strip(b)
  {
    StripSingle('-');
    StripAppend(a + "-", b);
    StripAppend(a, "-");
  }

  /** Removing the separators from formatted symbols gives the symbols back. */
  lemma StripFormat(syms: string)
    requires |syms| == 10 && '-' !in syms
    ensures Strip(Format(syms)) == syms
  {
    var a, b, c := syms[..3], syms[3..6], syms[6..];
    StripSeparator(a + "-" + b, c);
    StripSeparator(a, b);
    assert '-' !in a && '-' !in b && '-' !in c;
    StripNoHyphen(a);
    StripNoHyphen(b);
    StripNoHyphen(c);
    assert a + b + c == syms;
  }

  /** The code with its separators removed is the ten symbols. */
  lemma StripCode(lat: nat, lon: nat)
    ensures Strip(Code(lat, lon)) == Symbols(lat, lon)
  {
    SymbolsHaveNoSeparator(lat, lon);
    StripFormat(Symbols(lat, lon));
  }

  /** Writing one more symbol appends it and its separator. */
  lemma PartialStep(syms: string, n: nat)
    requires n < |syms|
    ensures Partial(syms, n + 1) == Partial(syms, n) + [syms[n]] + Separator(n + 1)
  {
    if n < 3 {
      assert syms[..n + 1] == syms[..n] + [syms[n]];
    } else if n < 6 {
      assert syms[3..n + 1] == syms[3..n] + [syms[n]];
    } else {
      assert syms[6..n + 1] == syms[6..n] + [syms[n]];
    }
  }

  /** Nothing is written before the first symbol, and the whole code after the tenth. */
  lemma PartialEnds(syms: string)
    requires |syms| == 10
    ensures Partial(syms, 0) == []
    ensures Partial(syms, 10) == Format(syms)
  {
    assert syms[6..10] == syms[6..];
  }

  /** The shape of every code: twelve characters, '-' at positions 3 and 7, and the ten symbols
      in order around them. */
  lemma CodeShape(lat: nat, lon: nat)
    ensures |Code(lat, lon)| == 12
    ensures Code(lat, lon)[3] == '-' && Code(lat, lon)[7] == '-'
    ensures forall i | 0 <= i < 12 && i != 3 && i != 7 :: IsGridSymbol(Code(lat, lon)[i])
    ensures Code(lat, lon)[..3] + Code(lat, lon)[4..7] + Code(lat, lon)[8..] == Symbols(lat, lon)
  {
    var syms := Symbols(lat, lon);
    var code := Code(lat, lon);
    assert code[..3] == syms[..3] && code[4..7] == syms[3..6] && code[8..] == syms[6..];
    assert syms == syms[..3] + syms[3..6] + syms[6..];
    forall i | 0 <= i < 12 && i != 3 && i != 7 ensures IsGridSymbol(code[i]) {
      var k := if i < 3 then i else if i < 7 then i - 1 else i - 2;
      assert code[i] == syms[k];
      assert Grid[Digit(lat, k)][Digit(lon, k)] == code[i];
    }
  }

  // ---------------------------------------------------------------------------------------
  // Round trip

  /** The positions of a code's symbols are the digits of its indices. */
  lemma RowsOfSymbols(find: char -> Result<Cell>, lat: nat, lon: nat)
    requires InvertsGrid(find)
    ensures Rows(find, Symbols(lat, lon)) == DigitsOf(lat, 10)
    ensures Cols(find, Symbols(lat, lon)) == DigitsOf(lon, 10)
    ensures FirstError(find, Symbols(lat, lon)) == 10
  {
    var syms := Symbols(lat, lon);
    forall k | 0 <= k < 10
      ensures find(syms[k]) == Ok(Cell(Digit(lat, k), Digit(lon, k)))
      ensures Rows(find, syms)[k] == DigitsOf(lat, 10)[k]
      ensures Cols(find, syms)[k] == DigitsOf(lon, 10)[k]
    {
      DigitIsDigitsOf(lat, k);
      DigitIsDigitsOf(lon, k);
    }
  }

  /** Decoding the code of an index pair gives the pair back, for any lookup that inverts the
      grid. */
  lemma DecodeCode(find: char -> Result<Cell>, lat: nat, lon: nat)
    requires InvertsGrid(find)
    requires lat < Power && lon < Power
    ensures DecodeSpec(find, Code(lat, lon)) == Ok(Indices(lat, lon))
    ensures DecodeSpec(find, Symbols(lat, lon)) == Ok(Indices(lat, lon))
  {
    var syms := Symbols(lat, lon);
    StripCode(lat, lon);
    SymbolsHaveNoSeparator(lat, lon);
    StripNoHyphen(syms);
    RowsOfSymbols(find, lat, lon);
    assert syms[..10] == syms;
    PowerIsTenDigits();
    IndexOfDigits(lat, 10);
    IndexOfDigits(lon, 10);
  }

  /** Distinct index pairs have distinct codes. */
  lemma CodeInjective(lat1: nat, lon1: nat, lat2: nat, lon2: nat)
    requires lat1 < Power && lon1 < Power && lat2 < Power && lon2 < Power
    requires Code(lat1, lon1) == Code(lat2, lon2)
    ensures lat1 == lat2 && lon1 == lon2
  {
    LocateInvertsGrid();
    DecodeCode(Locate, lat1, lon1);
    DecodeCode(Locate, lat2, lon2);
  }

  lemma LocateInvertsGrid()
    ensures InvertsGrid(Locate)
  {
    forall r, c | 0 <= r < 4 && 0 <= c < 4 ensures Locate(GridAt(r, c)) == Ok(Cell(r, c)) {
      GridSymbolsDistinct();
    }
  }

  /** A successful decode has read exactly ten accepted symbols. */
  lemma DecodeOk(find: char -> Result<Cell>, s: string)
    requires DecodeSpec(find, s).Ok?
    ensures |Strip(s)| == 10
    ensures forall i | 0 <= i < 10 :: find(Strip(s)[i]).Ok?
    ensures DecodeSpec(find, s).value ==
            Indices(IndexOf(Rows(find, Strip(s))), IndexOf(Cols(find, Strip(s))))
  {
    assert Strip(s)[..10] == Strip(s);
  }

  /** Whatever a decoder accepts is a cell of the grid, for a lookup that only answers with grid
      positions. */
  lemma DecodeBound(find: char -> Result<Cell>, s: string)
    requires CellsInGrid(find)
    requires DecodeSpec(find, s).Ok?
    ensures DecodeSpec(find, s).value.lat < Power && DecodeSpec(find, s).value.lon < Power
  {
    DecodeOk(find, s);
    PowerIsTenDigits();
  }

  /** The converse of `DecodeCode`: with a lookup that accepts only the grid symbols, a string
      decodes to a pair exactly when it is that pair's code up to its separators. */
  lemma DecodeExact(find: char -> Result<Cell>, s: string)
    requires ExactInverse(find)
    requires DecodeSpec(find, s).Ok?
    ensures DecodeSpec(find, s).value.lat < Power && DecodeSpec(find, s).value.lon < Power
    ensures Strip(s) == Symbols(DecodeSpec(find, s).value.lat, DecodeSpec(find, s).value.lon)
  {
    DecodeOk(find, s);
    PowerIsTenDigits();
    var p := Strip(s);
    var rows, cols := Rows(find, p), Cols(find, p);
    var lat, lon := IndexOf(rows), IndexOf(cols);
    DigitsOfIndex(rows);
    DigitsOfIndex(cols);
    forall k | 0 <= k < 10 ensures Symbols(lat, lon)[k] == p[k] {
      DigitIsDigitsOf(lat, k);
      DigitIsDigitsOf(lon, k);
    }
  }

  /** One step of `Strip` from the front. */
  lemma StripCons(s: string, i: nat)
    requires i < |s|
    ensures Strip(s[i..]) == (if s[i] == '-' then [] else [s[i]]) + Strip(s[i + 1..])
  {
    assert s[i..] == [s[i]] + s[i + 1..];
    StripAppend([s[i]], s[i + 1..]);
    StripSingle(s[i]);
  }

  /** `next()` on the iterator `s.chars().filter(|&c| c != '-')` whose underlying position is
      `from`: the next symbol that is not '-', if any, and the position just after it. */
  method NextSymbol(s: string, from: nat) returns (ch: Option<char>, next: nat)
    requires from <= |s|
    ensures from <= next <= |s|
    ensures ch.None? ==> Strip(s[from..]) == []
    ensures ch.Some? ==> Strip(s[from..]) == [ch.value] + Strip(s[next..])
  {
    next := from;
    while next < |s| && s[next] == '-'
      invariant from <= next <= |s|
      invariant Strip(s[from..]) == Strip(s[next..])
    {
      StripCons(s, next);
      next := next + 1;
    }
    if next == |s| {
      assert s[next..] == [];
      return None, next;
    }
    StripCons(s, next);
    ch := Some(s[next]);
    next := next + 1;
  }

  /** The decoders' step `idx = (idx << 2) | digit`, on the positions of the first `i + 1`
      symbols. */
  lemma IndexStep(find: char -> Result<Cell>, p: string, i: nat)
    requires i < |p|
    ensures IndexOf(Rows(find, p[..i + 1])) == IndexOf(Rows(find, p[..i])) * 4 + RowOf(find, p[i])
    ensures IndexOf(Cols(find, p[..i + 1])) == IndexOf(Cols(find, p[..i])) * 4 + ColOf(find, p[i])
  {
    assert Rows(find, p[..i + 1])[..i] == Rows(find, p[..i]);
    assert Cols(find, p[..i + 1])[..i] == Cols(find, p[..i]);
  }

  /** The first error of a sequence is the first rejected symbol. */
  lemma FirstErrorAt(find: char -> Result<Cell>, q: string, i: nat)
    requires i <= |q|
    requires forall j | 0 <= j < i :: find(q[j]).Ok?
    requires i < |q| ==> find(q[i]).Err?
    ensures FirstError(find, q) == i
  {
  }

  /** One more accepted symbol extends the accepted prefix. */
  lemma FirstErrorStep(find: char -> Result<Cell>, p: string, i: nat)
    requires i < |p| && FirstError(find, p[..i]) == i && find(p[i]).Ok?
    ensures FirstError(find, p[..i + 1]) == i + 1
  {
    assert forall j | 0 <= j < i :: p[..i + 1][j] == p[..i][j];
    FirstErrorAt(find, p[..i + 1], i + 1);
  }

  /** The four outcomes of `DecodeSymbols`, one lemma each. A symbol among the first ten that
      `find` rejects is reported... */
  lemma DecodeRejected(find: char -> Result<Cell>, p: string, i: nat)
    requires i < |p| && i < 10
    requires FirstError(find, p[..i]) == i
    requires find(p[i]).Err?
    ensures DecodeSymbols(find, p) == Err(find(p[i]).error)
  {
    var n := if |p| < 10 then |p| else 10;
    assert forall j | 0 <= j < i :: p[..n][j] == p[..i][j];
    FirstErrorAt(find, p[..n], i);
  }

  /** ... fewer than ten symbols, all accepted, are too few... */
  lemma DecodeShort(find: char -> Result<Cell>, p: string)
    requires |p| < 10
    requires FirstError(find, p) == |p|
    ensures DecodeSymbols(find, p) == Err(InvalidLength(|p|))
  {
    assert p[..|p|] == p;
  }

  /** ... ten accepted symbols followed by more are too many... */
  lemma DecodeLong(find: char -> Result<Cell>, p: string)
    requires |p| > 10
    requires FirstError(find, p[..10]) == 10
    ensures DecodeSymbols(find, p) == Err(InvalidLength(11))
  {
  }

  /** ... and exactly ten accepted symbols give the two indices. */
  lemma DecodeTen(find: char -> Result<Cell>, p: string)
    requires |p| == 10
    requires FirstError(find, p) == 10
    ensures DecodeSymbols(find, p) == Ok(Indices(IndexOf(Rows(find, p)), IndexOf(Cols(find, p))))
  {
    assert p[..10] == p;
  }

  /** The state of a decoder over `digipin.chars().filter(|&c| c != '-')` after `count` accepted
      symbols: the iterator stands at `pos` with the other symbols still ahead of it, and the
      indices hold the positions read so far. */
  ghost predicate ReadSoFar(find: char -> Result<Cell>, digipin: string, pos: nat, count: nat,
                            idxLat: nat, idxLon: nat)
  {
    var p := Strip(digipin);
    count <= |p| && pos <= |digipin| && Strip(digipin[pos..]) == p[count..] &&
    Accepted(find, p, count, idxLat, idxLon)
  }

  /** The first `k` symbols of `q` are accepted, and the indices hold their positions. */
  ghost predicate Accepted(find: char -> Result<Cell>, q: string, k: nat, idxLat: nat, idxLon: nat) {
    k <= |q| && FirstError(find, q[..k]) == k &&
    idxLat == IndexOf(Rows(find, q[..k])) && idxLon == IndexOf(Cols(find, q[..k]))
  }

  /** Accepting one more symbol: `idx = (idx << 2) | digit` on both indices. */
  lemma Accept(find: char -> Result<Cell>, q: string, k: nat, idxLat: nat, idxLon: nat)
    requires Accepted(find, q, k, idxLat, idxLon) && k < |q| && find(q[k]).Ok?
    ensures Accepted(find, q, k + 1, idxLat * 4 + find(q[k]).value.row, idxLon * 4 + find(q[k]).value.col)
  {
    IndexStep(find, q, k);
    FirstErrorStep(find, q, k);
  }

  /** Ten accepted symbols and nothing more decode to the accumulated indices. */
  lemma AcceptedTen(find: char -> Result<Cell>, q: string, idxLat: nat, idxLon: nat)
    requires |q| == 10 && Accepted(find, q, 10, idxLat, idxLon)
    ensures DecodeSymbols(find, q) == Ok(Indices(idxLat, idxLon))
  {
    assert q[..10] == q;
    DecodeTen(find, q);
  }

  /** A '-' under the cursor is skipped without changing the state. */
  lemma SkipSeparator(find: char -> Result<Cell>, s: string, i: nat, count: nat, lat: nat, lon: nat)
    requires ReadSoFar(find, s, i, count, lat, lon) && i < |s| && s[i] == '-'
    ensures ReadSoFar(find, s, i + 1, count, lat, lon)
  {
    StripCons(s, i);
  }

  /** Any other character under the cursor is the next symbol of the stripped string. */
  lemma NextIsSymbol(find: char -> Result<Cell>, s: string, i: nat, count: nat, lat: nat, lon: nat)
    requires ReadSoFar(find, s, i, count, lat, lon) && i < |s| && s[i] != '-'
    ensures count < |Strip(s)| && Strip(s)[count] == s[i] && Strip(s[i + 1..]) == Strip(s)[count + 1..]
  {
    StripCons(s, i);
    var p := Strip(s);
    assert p[count..] == [s[i]] + Strip(s[i + 1..]);
  }

  /** Accepting that symbol shifts its position into both indices. */
  lemma TakeSymbol(find: char -> Result<Cell>, s: string, i: nat, count: nat, lat: nat, lon: nat)
    requires ReadSoFar(find, s, i, count, lat, lon) && i < |s| && s[i] != '-' && find(s[i]).Ok?
    ensures ReadSoFar(find, s, i + 1, count + 1, lat * 4 + find(s[i]).value.row, lon * 4 + find(s[i]).value.col)
  {
    NextIsSymbol(find, s, i, count, lat, lon);
    Accept(find, Strip(s), count, lat, lon);
  }

  /** The cursor at the end of the string has read every symbol. */
  lemma ReadAll(find: char -> Result<Cell>, s: string, count: nat, lat: nat, lon: nat)
    requires ReadSoFar(find, s, |s|, count, lat, lon)
    ensures |Strip(s)| == count && Strip(s)[..count] == Strip(s)
  {
    assert s[|s|..] == [];
  }

  /** One iteration of the loop: take the next symbol (`InvalidLength(count)` when there is
      none), look it up (its error when rejected) and shift its position into both indices. */
  method ReadSymbol(find: char -> Result<Cell>, digipin: string, pos: nat, count: nat,
                    idxLat: nat, idxLon: nat)
    returns (failure: Option<DigipinError>, next: nat, lat: nat, lon: nat)
    requires count < 10 && ReadSoFar(find, digipin, pos, count, idxLat, idxLon)
    ensures failure.Some? ==> DecodeSpec(find, digipin) == Err(failure.value)
    ensures failure.None? ==> ReadSoFar(find, digipin, next, count + 1, lat, lon)
  {
    ghost var p := Strip(digipin);
    var ch;
    ch, next := NextSymbol(digipin, pos);
    if ch.None? {
      assert p[..count] == p;
      DecodeShort(find, p);
      return Some(InvalidLength(count)), next, idxLat, idxLon;
    }
    assert p[count] == ch.value && p[count + 1..] == Strip(digipin[next..]) by {
      assert p[count..] == [ch.value] + Strip(digipin[next..]);
    }
    var cell := find(ch.value);
    if cell.Err? {
      DecodeRejected(find, p, count);
      return Some(cell.error), next, idxLat, idxLon;
    }
    Accept(find, p, count, idxLat, idxLon);
    failure, lat, lon := None, idxLat * 4 + cell.value.row, idxLon * 4 + cell.value.col;
  }

  /** The loop `for _ in 0..10` of such a decoder: ten symbols, stopping at the first missing
      or rejected one with the error the decoding reports. */
  method ReadTen(find: char -> Result<Cell>, digipin: string)
    returns (failure: Option<DigipinError>, pos: nat, idxLat: nat, idxLon: nat)
    ensures failure.Some? ==> DecodeSpec(find, digipin) == Err(failure.value)
    ensures failure.None? ==> ReadSoFar(find, digipin, pos, 10, idxLat, idxLon)
  {
    pos, idxLat, idxLon := 0, 0, 0;
    var count := 0;
    for step := 0 to 10
      invariant count == step && ReadSoFar(find, digipin, pos, count, idxLat, idxLon)
    {
      failure, pos, idxLat, idxLon := ReadSymbol(find, digipin, pos, count, idxLat, idxLon);
      if failure.Some? {
        return;
      }
      count := count + 1;
    }
    failure := None;
  }

  /** A decoder over `digipin.chars().filter(|&c| c != '-')`: the ten-symbol loop, then the
      check that no eleventh symbol follows. */
  method DecodeChars(find: char -> Result<Cell>, digipin: string) returns (r: Result<Indices>)
    ensures r == DecodeSpec(find, digipin)
  {
    var failure, pos, idxLat, idxLon := ReadTen(find, digipin);
    if failure.Some? {
      return Err(failure.value);
    }
    ghost var p := Strip(digipin);
    var extra, _ := NextSymbol(digipin, pos);
    if extra.Some? {
      DecodeLong(find, p);
      return Err(InvalidLength(11));
    }
    AcceptedTen(find, p, idxLat, idxLon);
    return Ok(Indices(idxLat, idxLon));
  }

  /** Separators never change a decoding: a code typed with or without them decodes alike. */
  lemma HyphenIgnored(find: char -> Result<Cell>, a: string, b: string)
    ensures DecodeSpec(find, a + "-" + b) == DecodeSpec(find, a + b)
  {
    StripSeparator(a, b);
    StripAppend(a, b);
  }

  lemma {:induction false} ShrZero(s: nat)
    ensures Shr(0, s) == 0
  {
    if s > 0 {
      ShrZero(s - 1);
    }
  }

  /** Shifting an index of all-3 digits leaves all-3 digits. */
  lemma {:induction false} ShrAllThrees(m: nat, s: nat)
    requires s <= m
    ensures Shr(Pow4(m) - 1, 2 * s) == Pow4(m - s) - 1
  {
    if s > 0 {
      var q := Pow4(m - 1);
      assert Pow4(m) == 4 * q;
      ShrByTwo(Pow4(m) - 1, 2 * (s - 1));
      assert 2 * s == 2 * (s - 1) + 2;
      assert (4 * q - 1) / 4 == q - 1;
      ShrAllThrees(m - 1, s - 1);
    }
  }

  /** Every digit of the first index is 0 and every digit of the last one is 3. */
  lemma CornerDigits(k: nat)
    requires k < 10
    ensures Digit(0, k) == 0 && Digit(Power - 1, k) == 3
  {
    PowerIsTenDigits();
    ShrZero(18 - 2 * k);
    ShrAllThrees(10, 9 - k);
    assert 18 - 2 * k == 2 * (9 - k);
    var p := Pow4(k);
    assert Pow4(10 - (9 - k)) == 4 * p;
    assert (4 * p - 1) % 4 == 3;
  }

  /** The north-west corner cell is "FFF-FFF-FFFF". */
  lemma NorthWestCode()
    ensures Code(0, 0) == "FFF-FFF-FFFF"
  {
    forall k | 0 <= k < 10 ensures Symbols(0, 0)[k] == "FFFFFFFFFF"[k] {
      CornerDigits(k);
      assert k == 0 || k == 1 || k == 2 || k == 3 || k == 4 || k == 5 || k == 6 || k == 7 || k == 8 || k == 9;
    }
    assert Symbols(0, 0) == "FFFFFFFFFF";
  }

  /** The south-east corner cell is "TTT-TTT-TTTT". */
  lemma SouthEastCode()
    ensures Code(Power - 1, Power - 1) == "TTT-TTT-TTTT"
  {
    forall k | 0 <= k < 10 ensures Symbols(Power - 1, Power - 1)[k] == "TTTTTTTTTT"[k] {
      CornerDigits(k);
      assert k == 0 || k == 1 || k == 2 || k == 3 || k == 4 || k == 5 || k == 6 || k == 7 || k == 8 || k == 9;
    }
    assert Symbols(Power - 1, Power - 1) == "TTTTTTTTTT";
  }

  // ---------------------------------------------------------------------------------------
  // The strings of the test suites, without their separators

  lemma StripShort()
    ensures Strip("FCJ-3F9") == "FCJ3F9"
  {
    StripSeparator("FCJ", "3F9");
    assert "FCJ" + "-" + "3F9" == "FCJ-3F9";
    StripNoHyphen("FCJ");
    StripNoHyphen("3F9");
    assert "FCJ" + "3F9" == "FCJ3F9";
  }

  lemma StripWithZ()
    ensures Strip("FCJ-3F9-82Z3") == "FCJ3F982Z3"
  {
    StripSeparator("FCJ-3F9", "82Z3");
    assert "FCJ-3F9" + "-" + "82Z3" == "FCJ-3F9-82Z3";
    StripShort();
    StripNoHyphen("82Z3");
    assert "FCJ3F9" + "82Z3" == "FCJ3F982Z3";
  }

  lemma StripWithHyphens()
    ensures Strip("FCJ-3F9-8273") == "FCJ3F98273"
  {
    StripSeparator("FCJ-3F9", "8273");
    assert "FCJ-3F9" + "-" + "8273" == "FCJ-3F9-8273";
    StripShort();
    StripNoHyphen("8273");
    assert "FCJ3F9" + "8273" == "FCJ3F98273";
  }
}
