/** The fixed tables of src/constants.rs: the 4x4 symbol grid, the 128-entry inverse table
    `LOOKUP` (with lower-case aliases for the grid's letters), the precision `POWER`, the span and
    the bounding rectangle. */
module Constants {

  datatype Option<T> = None | Some(value: T)

  /** A (row, column) position in the grid, as the `(u8, u8)` pairs of `LOOKUP`. */
  datatype Cell = Cell(row: nat, col: nat)

  /** `DIGIPIN_GRID`: row 0 is the northernmost quadrant row, column 0 the westernmost. */
  const Grid: seq<seq<char>> := [
    ['F', 'C', '9', '8'],
    ['J', '3', '2', '7'],
    ['K', '4', '5', '6'],
    ['L', 'M', 'P', 'T']
  ]

  /** `DIGIPIN_GRID[row][col]`. */
  function GridAt(row: nat, col: nat): char
    requires row < 4 && col < 4
  {
    Grid[row][col]
  }

  predicate InGrid(c: Cell) {
    c.row < 4 && c.col < 4
  }

  predicate IsGridSymbol(ch: char) {
    exists r, c | 0 <= r < 4 && 0 <= c < 4 :: Grid[r][c] == ch
  }

  predicate IsUpperLetter(ch: char) {
    'A' <= ch <= 'Z'
  }

  /** The ASCII lower-case form of an upper-case letter. */
  function Lower(ch: char): char
    requires IsUpperLetter(ch)
  {
    (ch as int + 32) as char
  }

  /** `LOOKUP[ch as u8 as usize]`: the contents of the table that the const block of
      src/constants.rs builds, one entry per ASCII character. */
  function Lookup(ch: char): Option<Cell>
    requires ch as int < 128
  {
    match ch
    case 'F' => Some(Cell(0, 0))
    case 'C' => Some(Cell(0, 1))
    case '9' => Some(Cell(0, 2))
    case '8' => Some(Cell(0, 3))
    case 'J' => Some(Cell(1, 0))
    case '3' => Some(Cell(1, 1))
    case '2' => Some(Cell(1, 2))
    case '7' => Some(Cell(1, 3))
    case 'K' => Some(Cell(2, 0))
    case '4' => Some(Cell(2, 1))
    case '5' => Some(Cell(2, 2))
    case '6' => Some(Cell(2, 3))
    case 'L' => Some(Cell(3, 0))
    case 'M' => Some(Cell(3, 1))
    case 'P' => Some(Cell(3, 2))
    case 'T' => Some(Cell(3, 3))
    case 'f' => Some(Cell(0, 0))
    case 'c' => Some(Cell(0, 1))
    case 'j' => Some(Cell(1, 0))
    case 'k' => Some(Cell(2, 0))
    case 'l' => Some(Cell(3, 0))
    case 'm' => Some(Cell(3, 1))
    case 'p' => Some(Cell(3, 2))
    case 't' => Some(Cell(3, 3))
    case _ => None
  }

  /** One write `arr[ch as u8 as usize] = entry` of the const block. */
  method Store(arr: array<Option<Cell>>, ch: char, entry: Option<Cell>)
    requires ch as int < arr.Length
    modifies arr
    ensures arr[..] == old(arr[..])[ch as int := entry]
  {
    arr[ch as int] := entry;
  }

  /** The entries of `LOOKUP` once the symbols are written and before the aliases are. */
  function SymbolEntry(ch: char): Option<Cell>
    requires ch as int < 128
  {
    if 'a' <= ch <= 'z' then None else Lookup(ch)
  }

  /** The sixteen writes `arr['F' as u8 as usize] = Some((0, 0))`, ..., one per grid symbol, each
      with its position. */
  method StoreSymbols(arr: array<Option<Cell>>)
    requires arr.Length == 128
    requires forall i | 0 <= i < 128 :: arr[i] == None
    modifies arr
    ensures forall ch: char | ch as int < 128 :: arr[ch as int] == SymbolEntry(ch)
  {
    Store(arr, 'F', Some(Cell(0, 0)));
    Store(arr, 'C', Some(Cell(0, 1)));
    Store(arr, '9', Some(Cell(0, 2)));
    Store(arr, '8', Some(Cell(0, 3)));
    Store(arr, 'J', Some(Cell(1, 0)));
    Store(arr, '3', Some(Cell(1, 1)));
    Store(arr, '2', Some(Cell(1, 2)));
    Store(arr, '7', Some(Cell(1, 3)));
    Store(arr, 'K', Some(Cell(2, 0)));
    Store(arr, '4', Some(Cell(2, 1)));
    Store(arr, '5', Some(Cell(2, 2)));
    Store(arr, '6', Some(Cell(2, 3)));
    Store(arr, 'L', Some(Cell(3, 0)));
    Store(arr, 'M', Some(Cell(3, 1)));
    Store(arr, 'P', Some(Cell(3, 2)));
    Store(arr, 'T', Some(Cell(3, 3)));
  }

  /** The eight writes of the lower-case aliases, each with the entry of its letter. */
  method StoreAliases(arr: array<Option<Cell>>)
    requires arr.Length == 128
    requires forall ch: char | ch as int < 128 :: arr[ch as int] == SymbolEntry(ch)
    modifies arr
    ensures forall ch: char | ch as int < 128 :: arr[ch as int] == Lookup(ch)
  {
    ghost var before := arr[..];
    assert forall ch: char | ch as int < 128 :: before[ch as int] == SymbolEntry(ch);
    Store(arr, 'f', Some(Cell(0, 0)));
    Store(arr, 'c', Some(Cell(0, 1)));
    Store(arr, 'j', Some(Cell(1, 0)));
    Store(arr, 'k', Some(Cell(2, 0)));
    Store(arr, 'l', Some(Cell(3, 0)));
    Store(arr, 'm', Some(Cell(3, 1)));
    Store(arr, 'p', Some(Cell(3, 2)));
    Store(arr, 't', Some(Cell(3, 3)));
    forall ch: char | ch as int < 128 ensures arr[ch as int] == Lookup(ch) {
      assert before[ch as int] == SymbolEntry(ch);
    }
  }

  /** The const block that builds `LOOKUP`: a 128-slot array of `None`, then one write per
      symbol and per alias. */
  method BuildLookup() returns (table: seq<Option<Cell>>)
    ensures |table| == 128
    ensures forall ch: char | ch as int < 128 :: table[ch as int] == Lookup(ch)
  {
    var arr := new Option<Cell>[128](_ => None);
    StoreSymbols(arr);
    StoreAliases(arr);
    table := arr[..];
  }

  /** `SPAN`, the side of the bounding square in degrees. */
  const Span: real := 36.0

  datatype Bounds = Bounds(minLat: real, maxLat: real, minLon: real, maxLon: real)

  /** `BOUNDS`: the rectangle that covers India. */
  const BOUNDS: Bounds := Bounds(2.5, 38.5, 63.5, 99.5)

  /** `POWER = 1 << 20`, the number of cells along each axis. */
  const Power: nat := 0x10_0000

  function Pow2(n: nat): nat {
    if n == 0 then 1 else 2 * Pow2(n - 1)
  }

  function Pow4(n: nat): (p: nat)
    ensures p >= 1
  {
    if n == 0 then 1 else 4 * Pow4(n - 1)
  }

  /** Two bits per base-4 digit. */
  lemma {:induction false} Pow2Twice(n: nat)
    ensures Pow2(2 * n) == Pow4(n)
  {
    if n > 0 {
      Pow2Twice(n - 1);
      assert Pow2(2 * n) == 4 * Pow2(2 * (n - 1));
    }
  }

  /** `POWER` is 2^20 = 4^10: an index below it is exactly ten base-4 digits. */
  lemma PowerIsTenDigits()
    ensures Power == Pow2(20) == Pow4(10)
  {
    Pow2Twice(10);
  }

  /** The rectangle is a square: both axes span `SPAN` degrees. */
  lemma BoundsAreSquare()
    ensures BOUNDS.maxLat - BOUNDS.minLat == Span == BOUNDS.maxLon - BOUNDS.minLon
  {
  }

  /** `LOOKUP` sends every grid symbol back to its own position. */
  lemma LookupInvertsGrid()
    ensures forall r, c | 0 <= r < 4 && 0 <= c < 4 ::
      Grid[r][c] as int < 128 && Lookup(Grid[r][c]) == Some(Cell(r, c))
  {
    forall r, c | 0 <= r < 4 && 0 <= c < 4
      ensures Grid[r][c] as int < 128 && Lookup(Grid[r][c]) == Some(Cell(r, c))
    {
      assert r == 0 || r == 1 || r == 2 || r == 3;
      assert c == 0 || c == 1 || c == 2 || c == 3;
    }
  }

  /** The sixteen grid symbols are pairwise distinct: the table's inverse tells them apart. */
  lemma GridSymbolsDistinct()
    ensures forall r1, c1, r2, c2 |
      0 <= r1 < 4 && 0 <= c1 < 4 && 0 <= r2 < 4 && 0 <= c2 < 4 && Grid[r1][c1] == Grid[r2][c2] ::
      r1 == r2 && c1 == c2
  {
    LookupInvertsGrid();
  }

  /** Every entry of `LOOKUP` is a position inside the grid, and its key is the symbol at that
      position or the lower-case form of that symbol. */
  lemma LookupEntriesAreGridPositions()
    ensures forall ch: char | ch as int < 128 && Lookup(ch).Some? ::
      InGrid(Lookup(ch).value) &&
      (var sym := Grid[Lookup(ch).value.row][Lookup(ch).value.col];
       sym == ch || (IsUpperLetter(sym) && Lower(sym) == ch))
  {
  }

  /** The eight lower-case aliases are exactly the grid's letters: each of f, c, j, k, l, m, p, t
      has the entry of its upper-case letter, and no other lower-case letter has an entry. */
  lemma LowercaseAliases()
    ensures forall r, c | 0 <= r < 4 && 0 <= c < 4 && IsUpperLetter(Grid[r][c]) ::
      Lookup(Lower(Grid[r][c])) == Some(Cell(r, c))
    ensures forall ch: char | 'a' <= ch <= 'z' && Lookup(ch).Some? :: ch in "fcjklmpt"
  {
    forall r, c | 0 <= r < 4 && 0 <= c < 4 && IsUpperLetter(Grid[r][c])
      ensures Lookup(Lower(Grid[r][c])) == Some(Cell(r, c))
    {
      assert r == 0 || r == 1 || r == 2 || r == 3;
      assert c == 0 || c == 1 || c == 2 || c == 3;
    }
  }

  /** A string without repeated characters has as many distinct characters as it is long. */
  lemma {:induction false} DistinctSize(s: string)
    requires forall i, j | 0 <= i < j < |s| :: s[i] != s[j]
    ensures |set ch | ch in s| == |s|
  {
    if s != [] {
      var init := s[..|s| - 1];
      DistinctSize(init);
      assert (set ch | ch in s) == (set ch | ch in init) + {s[|s| - 1]};
    }
  }

  /** Every character with an entry in `LOOKUP` is one of the sixteen symbols or eight
      aliases. */
  lemma FilledAreKeys()
    ensures forall ch: char | ch as int < 128 && Lookup(ch).Some? :: ch in "FC98J327K456LMPTfcjklmpt"
  {
    var symbols, aliases := "FC98J327K456LMPT", "fcjklmpt";
    assert "FC98J327K456LMPTfcjklmpt" == symbols + aliases;
    forall ch | ch as int < 128 && Lookup(ch).Some? ensures ch in symbols + aliases {
      if ch < 'a' { assert ch in symbols; } else { assert ch in aliases; }
    }
  }

  /** Every one of the sixteen symbols and eight aliases has an entry in `LOOKUP`. */
  lemma KeysAreFilled()
    ensures forall ch | ch in "FC98J327K456LMPTfcjklmpt" :: ch as int < 128 && Lookup(ch).Some?
  {
    var keys := "FC98J327K456LMPTfcjklmpt";
    forall i | 0 <= i < |keys| ensures keys[i] as int < 128 && Lookup(keys[i]).Some? {
      if i < 12 { } else { }
    }
  }

  /** The filled slots of `LOOKUP` are exactly the sixteen symbols and eight aliases. */
  lemma FilledSlots()
    ensures (set ch: char | ch as int < 128 && Lookup(ch).Some?) == set ch | ch in "FC98J327K456LMPTfcjklmpt"
  {
    FilledAreKeys();
    KeysAreFilled();
  }

  /** The separator has no entry, and exactly 24 of the 128 slots are filled: the 16 symbols and
      their 8 aliases. */
  lemma LookupSize()
    ensures Lookup('-') == None
    ensures |set ch: char | ch as int < 128 && Lookup(ch).Some?| == 24
  {
    FilledSlots();
    DistinctSize("FC98J327K456LMPTfcjklmpt");
  }
}
