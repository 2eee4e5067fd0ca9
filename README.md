# DIGIPIN: the index layer of a geocode codec, in Dafny

DIGIPIN names a cell of a square over India (latitude 2.5 to 38.5, longitude 63.5 to 99.5). It
does so with ten symbols taken from a fixed 4x4 grid, written `XXX-XXX-XXXX`. Each symbol picks
one quadrant row and one quadrant column, so the ten symbols spell two 20-bit cell indices, one
base-4 digit per level, most significant first.

This project models the integer and string layer of the Rust crate, file by file:

| file | module | what it holds |
|---|---|---|
| `errors.dfy` | `Errors` | the four-variant `DigipinError`; `Result`; the IEEE comparisons the range checks need (`F64` with NaN and infinities) |
| `constants.dfy` | `Constants` | the grid, the shared 128-slot `LOOKUP` table and its in-place construction, `POWER`, `SPAN`, `BOUNDS` |
| `digits.dfy` | `Digits` | reference definitions shared by the encoders and decoders: digits, symbols, the 3-3-4 format, separator stripping, the decoding procedure over any symbol lookup, the grid search; and the lemmas that relate them |
| `encode.dfy` | `Encode` | `get_digipin` of src/encode.rs (shift `18 - 2*level`) |
| `encoding.dfy` | `Encoding` | `get_digipin` of src/encoding.rs (shift `2*i`, `i` from 9 down to 0) |
| `decode.dfy` | `Decode` | `find_char_in_grid` and the iterator loop of src/decode.rs |
| `decoding.dfy` | `Decoding` | the alias-free table, `parse_ascii` with its two fast paths and general loop, `parse_unicode`, and the ASCII/Unicode dispatch of src/decoding.rs |
| `lib.dfy` | `Lib` | the self-contained crate root src/lib.rs: nested grid search, length-first decoding, level-by-level encoding |

Every loop of the source is a method with loop invariants. Each method is proved equal to a
reference function (`Code`, `DecodeSpec`, `ParseAsciiSpec`, `DecodeLengthFirst`, ...), and the
properties of those functions are proved as lemmas:
- encoding then decoding is the identity on index pairs below `POWER`;
- the decoders of src/decoding.rs and src/lib.rs accept exactly the codes, up to separators, and
  the decoder of src/decode.rs accepts them up to separators and the case of the letters;
- the grid and the tables invert each other;
- the fast paths agree with the general loop whenever either succeeds;
- each error comes out in the order that the source produces it.

Floating point is outside the model. Where the source turns a coordinate into an index, the
index is a parameter of the model: the raw index before the clamp in src/encode.rs and
src/encoding.rs, and the floored position of each level in src/lib.rs. Where the source turns
indices back into a coordinate, the model's result is the index pair.

## Model

| member | source | states |
|---|---|---|
| Errors.OutsideMeansStrictlyBeyond | src/encode.rs:30-35 | for a number that is not NaN, failing the inclusive range check means lying strictly below the lower edge or strictly above the upper one |
| Constants.GridAt | src/constants.rs:2-7 | `DIGIPIN_GRID[row][col]`, for row and column below 4 |
| Constants.Lookup | src/constants.rs:8-35 | the contents of `LOOKUP`: sixteen symbols and eight aliases with their (row, column), `None` elsewhere |
| Constants.BuildLookup | src/constants.rs:8-35 | the 24 in-place writes into a 128-slot array of `None` leave slot `ch` holding `Lookup(ch)` for every ASCII `ch` |
| Constants.StoreSymbols | src/constants.rs:10-25 | after the sixteen symbol writes into an array of `None`, each slot holds its `LOOKUP` entry, except that lower-case letters have none yet |
| Constants.StoreAliases | src/constants.rs:26-33 | the eight alias writes complete the table: every slot then holds its `LOOKUP` entry |
| Constants.Pow2Twice | src/constants.rs:37 | 2^(2n) = 4^n: two bits make one base-4 digit |
| Constants.PowerIsTenDigits | src/constants.rs:37 | `POWER` = 2^20 = 4^10, so an index below `POWER` is exactly ten base-4 digits |
| Constants.BoundsAreSquare | src/constants.rs:36-54 | both sides of `BOUNDS` span `SPAN` = 36 degrees |
| Constants.LookupInvertsGrid | src/constants.rs:2-25 | for every r, c < 4, the grid symbol at (r, c) is ASCII and `LOOKUP` maps it to `Some((r, c))` |
| Constants.GridSymbolsDistinct | src/constants.rs:2-7 | the sixteen grid symbols are pairwise distinct |
| Constants.LookupEntriesAreGridPositions | src/constants.rs:10-33 | every `Some((r, c))` entry has r, c < 4, and its key is the symbol at (r, c) or that symbol's lower-case form |
| Constants.LowercaseAliases | src/constants.rs:26-33 | f, c, j, k, l, m, p, t map to the position of their upper-case letter; no other lower-case letter has an entry |
| Constants.FilledSlots | src/constants.rs:8-35 | the filled slots are exactly the sixteen symbols and eight aliases |
| Constants.LookupSize | src/constants.rs:8-35 | `LOOKUP['-']` is `None`, and exactly 24 of the 128 slots are filled |
| Digits.Clamp | src/encode.rs:43-44 | `idx.min(POWER - 1)` is below `POWER`, at most the raw index, and is either the raw index or `POWER - 1` |
| Digits.IndexOf | src/decode.rs:38-39 | `idx = (idx << 2) \| digit` over n digits below 4 yields an index below 4^n |
| Digits.Strip | src/decode.rs:29 | filtering out '-' never lengthens the string |
| Digits.FirstError | src/decode.rs:34-44 | the position of the first symbol the lookup rejects: every symbol before it is accepted, and the one at it is rejected |
| Digits.LocateFrom | src/lib.rs:200-209 | the row-major search from (row, col) returns a position holding `ch`, or `InvalidCharacter(ch)` when no later position holds it |
| Digits.Locate | src/lib.rs:200-209 | the grid search succeeds exactly on grid symbols, at a position holding the symbol, and otherwise fails with `InvalidCharacter(ch)` |
| Digits.LocateFinds | src/lib.rs:200-209 | the search finds exactly the sixteen characters of "FC98J327K456LMPT", all ASCII |
| Digits.DigitsOfSnoc | src/encode.rs:47-50 | the n digits of x are the n - 1 digits of x / 4 followed by x % 4 |
| Digits.IndexOfDigits | src/decode.rs:34-40 | rebuilding an index below 4^n from its n digits gives the index back |
| Digits.DigitsOfIndex | src/decode.rs:38-39 | the digits of a rebuilt index are the digits it was rebuilt from, most significant first |
| Digits.DigitIsDigitsOf | src/encode.rs:48-50 | `(idx >> (18 - 2k)) & 3` is digit k of idx's ten-digit expansion |
| Digits.StripAppend | src/decode.rs:29 | filtering distributes over concatenation |
| Digits.StripRemovesSeparators | src/decode.rs:29 | no '-' survives the filter |
| Digits.StripNoHyphen | src/decode.rs:29 | a string without '-' passes unchanged |
| Digits.StripKeepsLength | src/decode.rs:29 | a string that loses nothing to the filter is unchanged |
| Digits.StripKeeps | src/decode.rs:29 | a non-'-' character at i appears in the output, at the position given by the filtered prefix before it |
| Digits.GridHasNoSeparator | src/constants.rs:2-7 | no grid symbol is '-' |
| Digits.SymbolsHaveNoSeparator | src/encode.rs:47-51 | the ten symbols of any index pair hold no '-' |
| Digits.StripSeparator | src/decode.rs:29 | a '-' between two strings vanishes, wherever it stands |
| Digits.StripFormat | src/encode.rs:46-55 | removing the separators from a formatted code gives its ten symbols back |
| Digits.StripCode | src/encode.rs:46-55 | the separator-free form of a code is its ten symbols |
| Digits.PartialStep | src/encode.rs:51-54 | writing the next symbol appends it, then a '-' after the third and sixth symbols |
| Digits.PartialEnds | src/encode.rs:46-55 | nothing is written before the loop, and the whole 3-3-4 code after it |
| Digits.CodeShape | src/encode.rs:46-55 | every code has 12 characters, '-' at positions 3 and 7, a grid symbol elsewhere, and its ten symbols around the separators |
| Digits.RowsOfSymbols | src/decode.rs:37-39 | under a lookup that inverts the grid, the rows (columns) of a code's symbols are the digits of its latitude (longitude) index |
| Digits.DecodeCode | src/decode.rs:34-48 | under any lookup that inverts the grid, the code of an index pair below `POWER` decodes to that pair, with or without separators |
| Digits.CodeInjective | src/encode.rs:47-55 | distinct index pairs below `POWER` have distinct codes |
| Digits.LocateInvertsGrid | src/lib.rs:200-209 | the grid search sends every grid symbol to its own position |
| Digits.DecodeOk | src/decode.rs:34-48 | a successful decode read exactly ten accepted symbols, and its indices are the ones their positions spell |
| Digits.DecodeBound | src/decode.rs:38-39 | under a lookup that answers only with grid positions, decoded indices are below `POWER` |
| Digits.DecodeExact | src/decode.rs:28-48 | under an exact inverse of the grid, whatever decodes is, without its separators, the code of the pair it decodes to, and that pair is below `POWER` |
| Digits.StripCons | src/decode.rs:29 | filtering from position i: skip a '-', or keep the character ahead of the rest |
| Digits.NextSymbol | src/decode.rs:29-35 | `char_iter.next()` on the filtered iterator: the next non-'-' character from the cursor and the cursor after it, or `None` when only separators remain |
| Digits.IndexStep | src/decode.rs:38-39 | one more symbol multiplies both rebuilt indices by 4 and adds its row and column |
| Digits.DecodeRejected | src/decode.rs:37 | a rejected symbol among the first ten, after accepted ones, gives that symbol's error whatever follows |
| Digits.DecodeShort | src/decode.rs:42 | fewer than ten symbols, all accepted, give `InvalidLength(count)` |
| Digits.DecodeLong | src/decode.rs:46-48 | ten accepted symbols followed by any other give `InvalidLength(11)` |
| Digits.DecodeTen | src/decode.rs:34-48 | exactly ten accepted symbols give the indices their positions spell |
| Digits.Accept | src/decode.rs:37-40 | one more accepted symbol extends the accepted prefix and shifts its position into both indices |
| Digits.AcceptedTen | src/decode.rs:34-48 | ten accepted symbols and nothing after them decode to the accumulated indices |
| Digits.SkipSeparator | src/decode.rs:29 | a '-' under the cursor is skipped without changing the decoder's state |
| Digits.NextIsSymbol | src/decode.rs:29 | any other character under the cursor is the next symbol of the filtered string |
| Digits.TakeSymbol | src/decode.rs:35-40 | accepting that symbol advances the cursor and the count and updates both indices |
| Digits.ReadAll | src/decode.rs:42 | a cursor at the end of the input has read every symbol |
| Digits.ReadSymbol | src/decode.rs:35-41 | one loop iteration: `InvalidLength(count)` when the symbols run out, the lookup's error on a rejected symbol (each equal to the reference decoding), else the updated state |
| Digits.ReadTen | src/decode.rs:34-44 | the ten-iteration loop either fails as the reference decoding does or has read ten accepted symbols |
| Digits.DecodeChars | src/decode.rs:29-48 | the loop plus the check for an eleventh symbol returns exactly `DecodeSpec(find, s)` |
| Digits.HyphenIgnored | src/decode.rs:29 | inserting a '-' anywhere does not change the result of decoding |
| Digits.NorthWestCode | src/encode.rs:46-55 | index pair (0, 0) encodes to "FFF-FFF-FFFF" |
| Digits.SouthEastCode | src/encode.rs:43-55 | index pair (`POWER - 1`, `POWER - 1`) encodes to "TTT-TTT-TTTT" |
| Encode.GetDigipin | src/encode.rs:29-58 | a latitude outside [2.5, 38.5] (NaN included) gives `LatitudeOutOfRange(latitude)`, checked first; then a longitude outside [63.5, 99.5] gives `LongitudeOutOfRange(longitude)`; otherwise the result is the code of the clamped index pair |
| Encode.WriteLevels | src/encode.rs:46-55 | the level loop writes exactly `Code(idxLat, idxLon)` |
| Encode.InvalidCoordinates | src/encode.rs:66-77 | 50.0 fails the latitude check; 28.0 passes it and 120.0 fails the longitude check |
| Encoding.GetDigipin | src/encoding.rs:23-49 | the same checks in the same order as src/encode.rs, and on accepted input the same string `Code(Clamp(rawLat), Clamp(rawLon))` |
| Encoding.WriteLevels | src/encoding.rs:36-46 | the loop over `i` from 9 down to 0, with separators at i = 7 and i = 4, writes exactly `Code(idxLat, idxLon)`: character for character the output of src/encode.rs's loop |
| Decode.FindCharInGrid | src/decode.rs:61-70 | a code point above 127 is `InvalidCharacter`; an accepted character is the symbol at the returned position or its lower-case alias; a rejection is `InvalidCharacter(ch)` |
| Decode.FindCharInGridAccepts | src/decode.rs:61-70 | the lookup inverts the grid, answers only with grid positions, and accepts each letter's lower-case alias at the letter's position |
| Decode.GetCoordinatesFromDigipin | src/decode.rs:28-48 | the decoder returns exactly `DecodeSpec(FindCharInGrid, digipin)` |
| Decode.DecodeOfCode | src/decode.rs:34-48 | the code of every index pair below `POWER` decodes to that pair |
| Decode.CodeOfDecode | src/decode.rs:34-48 | whatever decodes gives a pair below `POWER`, whose code decodes to the same pair |
| Decode.TooFewSymbols | src/decode.rs:78-83 | "FCJ-3F9" gives `InvalidLength(6)` |
| Decode.RejectsZ | src/decode.rs:85-89 | "FCJ-3F9-82Z3" gives `InvalidCharacter('Z')` |
| Decode.HyphensOptional | src/decode.rs:92-99 | "FCJ-3F9-8273" and "FCJ3F98273" decode to the same pair, successfully |
| Decoding.Table | src/decoding.rs:3-22 | the contents of this module's `LOOKUP`: the sixteen symbols with their (row, column), `None` elsewhere |
| Decoding.BuildTable | src/decoding.rs:3-22 | the 16 in-place writes leave slot `ch` holding `Table(ch)` for every ASCII `ch` |
| Decoding.TableDropsAliases | src/decoding.rs:3-22 | this table is the shared one with every lower-case entry removed |
| Decoding.FindCharInGrid | src/decoding.rs:57-67 | an accepted character is exactly the symbol at the returned grid position; anything else is `InvalidCharacter(ch)` |
| Decoding.FindCharInGridExact | src/decoding.rs:57-67 | the lookup accepts exactly the sixteen grid symbols, each at its own position |
| Decoding.FindCharInGridIsSearch | src/decoding.rs:57-67 | the table lookup and the grid search give the same answer on every character |
| Decoding.PickedAt | src/decoding.rs:87-89 | the list `[0, 1, 2, 4, 5, 6, 8, 9, 10, 11]` picks the bytes around positions 3 and 7, in order |
| Decoding.ParseTen | src/decoding.rs:74-83 | the ten-byte path decodes the ten bytes as they stand; a '-' among them is `InvalidCharacter('-')` |
| Decoding.ParseGrouped | src/decoding.rs:84-95 | the twelve-byte path decodes the ten bytes around positions 3 and 7 as they stand |
| Decoding.TakeByte | src/decoding.rs:102-110 | a byte without an entry fails as the general decoding does; otherwise the state advances by one symbol |
| Decoding.ScanSymbols | src/decoding.rs:97-111 | the first general loop skips '-' and either fails as the general decoding does or stops with ten symbols or at the end of the bytes |
| Decoding.ParseGeneral | src/decoding.rs:97-122 | the general path, with its count check and its trailing loop that allows only '-', returns exactly `DecodeSpec(FindCharInGrid, bytes)` |
| Decoding.ParseAscii | src/decoding.rs:69-123 | `parse_ascii` returns exactly `ParseAsciiSpec(digipin)`: ten bytes positionally, twelve bytes with '-' at 3 and 7 positionally, anything else the general way |
| Decoding.ParseUnicode | src/decoding.rs:125-142 | `parse_unicode` returns exactly `DecodeSpec(FindCharInGrid, digipin)` |
| Decoding.ParseDigipin | src/decoding.rs:44-48 | the dispatch of both public functions chooses the path by `is_ascii` alone (the same dispatch stands at src/decoding.rs:164-168) |
| Decoding.TenBytesAgree | src/decoding.rs:74-83 | the ten-byte path and the general decoding give the same result whenever either succeeds |
| Decoding.TwelveBytesAgree | src/decoding.rs:84-95 | the twelve-byte path equals decoding the same ten symbols without separators, whenever either succeeds |
| Decoding.FastPathsAgree | src/decoding.rs:69-123 | `parse_ascii` and the general decoding give the same result whenever either succeeds |
| Decoding.TenBytesWithSeparator | src/decoding.rs:74-83 | "FCJ-3F9827" is `InvalidCharacter('-')` on the ten-byte path but `InvalidLength(9)` on the general path |
| Decoding.NonAsciiNeverDecodes | src/decoding.rs:57-67 | a string with a character outside ASCII never decodes |
| Decoding.CodeIsAscii | src/decoding.rs:44 | every code is ASCII, so it takes the `parse_ascii` branch |
| Decoding.ParseCode | src/decoding.rs:43-48 | every code of a pair below `POWER` decodes, through the dispatch, to that pair |
| Decoding.ParseExact | src/decoding.rs:43-48 | whatever decodes equals the general decoding, is below `POWER`, and is, without separators, the code of its pair |
| Lib.FindCharInGrid | src/lib.rs:200-209 | the nested scan with early return succeeds exactly on grid symbols, returns the position that holds the symbol, and otherwise gives `InvalidCharacter(ch)` |
| Lib.ByteLen | src/lib.rs:166 | a character takes 1 to 4 bytes, and exactly 1 when it is ASCII |
| Lib.Utf8Len | src/lib.rs:166-167 | a string's byte length is at least its character count, with equality exactly for ASCII strings |
| Lib.CollectSymbols | src/lib.rs:164 | collecting the filtered characters gives `Strip(digipin)` |
| Lib.DecodeLengthFirst | src/lib.rs:163-191 | the separators are dropped, a byte length other than 10 is `InvalidLength(len)`, then the first character the grid search rejects is `InvalidCharacter`, else the pair its positions spell |
| Lib.GetCoordinatesFromDigipin | src/lib.rs:163-191 | returns exactly `DecodeLengthFirst(digipin)`: the byte length of the stripped string is checked first, then each character in turn |
| Lib.GridSymbolsAreAscii | src/lib.rs:5-10 | a string of grid symbols is ASCII |
| Lib.LengthFirstAgrees | src/lib.rs:164-191 | checking the length first changes only the errors: wherever either order of checks succeeds, both give the same pair |
| Lib.DecodeOfCode | src/lib.rs:163-191 | the code of every index pair below `POWER` decodes to that pair |
| Lib.CodeOfDecode | src/lib.rs:163-191 | whatever decodes is, without its separators, the code of the pair it decodes to; that pair is below `POWER`, and its code decodes to it again |
| Lib.LengthBeforeCharacters | src/lib.rs:166-176 | "FCJ3Z" is `InvalidLength(5)` here but `InvalidCharacter('Z')` in src/decode.rs's order |
| Lib.LengthCountsBytes | src/lib.rs:166-167 | nine symbols and an 'é' are `InvalidLength(11)` here, since 'é' is two bytes, but `InvalidCharacter('é')` in src/decode.rs's order |
| Lib.TooFewSymbols | src/lib.rs:246-249 | "FCJ-3F9" gives `InvalidLength(6)` |
| Lib.RejectsZ | src/lib.rs:251-255 | "FCJ-3F9-82Z3" gives `InvalidCharacter('Z')` |
| Lib.HyphensOptional | src/lib.rs:258-265 | "FCJ-3F9-8273" and "FCJ3F98273" decode to the same pair, successfully |
| Lib.GetDigipin | src/lib.rs:101-142 | `latitude < 2.5 \|\| latitude > 38.5` gives `LatitudeOutOfRange`, checked first, then the same for longitude; otherwise the ten symbols that the levels pick with the row as written (release build, `usize` wrap-around), grouped 3-3-4 |
| Lib.LevelRowAsWritten | src/lib.rs:121-124 | `(3 - q).min(3)` on `usize` with wrap-around is `3 - q` for q <= 3 and 3 for every larger position, always a grid row |
| Lib.LevelCol | src/lib.rs:122-125 | the column of one level, the floored longitude position capped at 3 |
| Lib.WriteLevels | src/lib.rs:116-131 | the level loop writes `GRID[(3 - q).min(3)][q'.min(3)]` for each level, with '-' after the third and sixth: the ten picked symbols grouped 3-3-4 |
| Lib.PickedAreCode | src/lib.rs:116-131 | ten symbols picked at grid rows and columns are, grouped 3-3-4, the code of the cell whose base-4 digits are those rows and columns |
| Lib.LevelSymbolsAreCode | src/lib.rs:116-131 | the encoder's output is `Code` of the cell whose row and column digits it picked level by level, and that cell is below `POWER` on both axes |
| Lib.EncodeThenDecode | src/lib.rs:215-226 | decoding what the encoder writes gives back the cell its levels picked |
| Lib.InvalidCoordinates | src/lib.rs:228-241 | 50.0 fails the latitude check; 28.0 passes it and 120.0 fails the longitude check |
| Lib.RangeChecksDifferOnNaN | src/lib.rs:102-107 | this check and src/encode.rs's `contains` agree on every number; NaN passes this one and fails `contains` |
| Lib.LevelRowAgrees | src/lib.rs:121-124 | the row as written and the corrected row agree wherever `3 - q` does not underflow |
| Lib.NorthEdgeRowAsWritten | src/lib.rs:121-124 | latitude 38.5 has first-level position 4, and as written that position gets row 3 while position 3 gets row 0 |
| Lib.LevelRowOrdered | src/lib.rs:121-124 | the corrected row never moves south as the position rises, stays on the grid, and puts position 4, the north edge, in row 0 |
| Lib.IntendedSymbolsAreCode | src/lib.rs:116-131 | with the corrected row the encoder writes the code of the cell it picked, and that code decodes back to the cell |
| Lib.WrittenIsIntendedBelowEdge | src/lib.rs:121-124 | the encoder as written and with the corrected row write the same string exactly when no level's latitude position is above 3 |
| Lib.NorthEastCornerAsWritten | src/lib.rs:116-139 | at latitude 38.5 and longitude 99.5, as written the encoder (latitude positions 4^k at level k, longitude positions 4) writes "TTT-TTT-TTTT", the south-east corner's code; with the corrected row (all positions 4, the box staying on the north edge) it writes "888-888-8888", as src/encode.rs does |

## Left out

- Floating point. The model leaves out these computations, each of which is a parameter or a result of the model instead:
  - the normalisation and truncation to an index (src/encode.rs:37-44, src/encoding.rs:31-34);
  - the centre of a cell (src/decode.rs:50-57, src/decoding.rs:49-53);
  - the bounds of a cell (src/decoding.rs:169-183);
  - the box subdivisions of src/lib.rs (lines 109-139 and 170-196).
- Encode.GetDigipin: the raw index `(frac * POWER as f64) as u32` is a parameter, so the contract says nothing about which index a given latitude yields. The same goes for `Encoding.GetDigipin`'s floored value.
- Lib.GetDigipin: the floored position of each level is a parameter. The contract does not tie those positions to the coordinate or to each other.
- Lib.GetDigipin: models a release build. Where a level's latitude position is above 3, a debug build panics on the `usize` subtraction `3 - q` (src/lib.rs:121); the model returns the wrapped-around row 3 instead.
- Lib.GetCoordinatesFromDigipin: its result is the cell (row index, column index) that the final box denotes, not the box's centre.
- Comparisons treat a finite `f64` as a real number; rounding is not modelled.
- `u32` arithmetic is on unbounded naturals, because it never wraps: indices stay below 2^20, shifts are at most 18, `(idx << 2) | digit` with `digit < 4` is `idx * 4 + digit`, and `(idx >> s) & 3` is `Shr(idx, s) % 4`.
- The `Display` impls and error messages (src/error.rs, src/errors.rs, src/lib.rs:57-76). So are the doc comments of src/error.rs, which give other ranges than `BOUNDS`; the model follows `BOUNDS`.
- src/types.rs and src/coordinates.rs: plain structs with no behaviour.
- examples/basic_usage.rs and benches/digipin_benches.rs: callers that print and time.
- The `debug_assert!` of `parse_ascii` (src/decoding.rs:70) becomes the precondition `IsAscii` of `Decoding.ParseAscii`, which the dispatch establishes.
- `get_coordinates_from_digipin` and `get_bounds_from_digipin` of src/decoding.rs share one parse of the index pair. It is modelled once, as `Decoding.ParseDigipin`.
- src/lib.rs carries its own copy of the grid, the bounds and the error type. The model uses the shared definitions, whose values are identical.

## Findings

| source | as written | input that shows it | evidently intended | confidence | as-written member | corrected member |
|---|---|---|---|---|---|---|
| src/lib.rs:121-124 | the row of a level is `3 - q` on `usize`, where q is the floored position of the latitude in the box, capped afterwards with `.min(3)`; on the north edge of the box q is 4, so `3 - 4` panics in a debug build and wraps in a release build, where `.min(3)` then selects row 3, the southernmost | latitude 38.5, the north edge of `BOUNDS`: q = (38.5 - 2.5) / 9 = 4 at level 1, exactly in `f64` | the north edge lies in the northernmost row 0 (`3 - min(q, 3)`), as in src/encode.rs, where latitude 38.5 has index 0 | high; not executed | Lib.GetDigipin, Lib.NorthEdgeRowAsWritten, Lib.NorthEastCornerAsWritten | Lib.IntendedSymbolsAreCode, Lib.LevelRowOrdered, Lib.WrittenIsIntendedBelowEdge |
