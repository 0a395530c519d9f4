# PHPChessDiagram in Dafny

PHPChessDiagram (`index.php`) renders a chess position given in Forsyth-Edwards Notation
(FEN) as a PNG board and caches the picture under a file name derived from the request.
This project models the logic of that script and proves properties of it:

- `fen.dfy` (module `Fen`): the lenient piece-placement parser `parse_fen`. The loop is
  the method `ParseFen`: it writes an `array<char>` of 64 slots in place. It is proved
  equal to `Parse`, a left fold (`Scan`) of the loop body (`Step`) over the first
  space-delimited field of the FEN text.
- `fen_examples.dfy` (module `FenExamples`): concrete parses. These are the standard
  start position, overfull ranks, noise characters and ranks beyond the eighth.
- `cache_key.dfy` (module `CacheKey`): `request_to_file_name`, which joins the request
  fields with `_`, filters them to `[kqrnbpKQRNBP_0-9-]`, hashes the result and appends
  `.png`. The file also models the placement-only key that the source computes on
  line 61 and then discards (see Findings).
- `color.dfy` (module `Color`): `hex_rgb`, which turns `#rrggbb` or `#rgb` into RGB
  components.
- `sprites.dfy` (module `Sprites`): `is_upper`, `get_sprite_name`, and
  `load_sprites` with its `array_unique`.
- `render.dfy` (module `Render`): the board geometry of `draw_board` and `add_pieces`:
  slot to square, orientation, and square colour. A `Canvas` class holds one fill
  colour and one sprite per square. `DrawBoard` and `AddPieces` are its loops. `Draw`
  is the cache-miss path of the top-level script, from parsing to the drawn canvas.

Several inputs are parameters of the model:

- md5 is a function `md5: string -> string`.
- Loading a PNG file is `load: string -> Option<Image>`, where `None` stands for
  imagecreatefrompng's `false`.
- The request size and orientation are their PHP string forms: decimal digits, with
  `true` as "1" and `false` as "".

## Model

| member | source | states |
|---|---|---|
| Fen.EmptyBoard | index.php:100 | the 64 blank slots every parse starts from; ParseShape and ScanSlots say what a parse makes of them, and NinthRankIgnored shows eight empty ranks give this board back |
| Fen.IsDigit | index.php:114 | the digits 1-8 that skip squares; DigitValue gives their value, and NineIgnored and ZeroIgnored show '9' and '0' are not among them |
| Fen.IsPiece | index.php:116 | the twelve piece letters, also the filter of load_sprites; ScanSlots and ParseShape show they are the only letters placed, PieceColour splits them by colour |
| Fen.DigitValue | index.php:114-115 | a digit 1-8 advances the column by 1 to 8 |
| Fen.FirstField | index.php:99 | the first field is a prefix of the text, holds no space, and ends at the first space |
| Fen.Step | index.php:106-120 | one loop step keeps the board at 64 slots |
| Fen.StepFrame | index.php:106-120 | the only slot a step may change is row*8+col, only while col <= 7, and only to the piece letter read at that step |
| Fen.Parse | index.php:96-123 | the board parse_fen returns has 64 slots; ParseShape gives its contents, OnlyPlacementField its input, and ParseFen is the loop that computes it |
| Fen.Scan | index.php:104-121 | the loop keeps 64 slots and never decreases the row |
| Fen.ParseFen | index.php:96-123 | the in-place loop over the board array returns exactly `Parse(fen)` |
| Fen.ScanAppend | index.php:104-121 | scanning a concatenation is scanning its parts in turn |
| Fen.ScanSlots | index.php:100-120 | every slot stays ' ' or a piece letter, and each changed slot holds a letter of the scanned text |
| Fen.ParseShape | index.php:96-123 | parse_fen returns 64 slots, each empty or a piece, and every piece occurs in the first field |
| Fen.StopsAfterEighthRank | index.php:106-107 | once row > 7 nothing further is read |
| Fen.NoNinthRank | index.php:106-113 | a '/' after the 8th rank closes the board; what follows is dropped |
| Fen.NoiseIgnored | index.php:114-121 | a character that is not '/', a digit 1-8 or a piece changes nothing while col <= 7 |
| Fen.OverflowConsumes | index.php:109-113 | while col > 7 any character moves to the next row and is consumed, not placed |
| Fen.PlacesRun | index.php:116-120 | a run of pieces that fits the row lands on consecutive slots from row*8+col, nothing else changes |
| Fen.FirstFieldPrefix | index.php:99 | text without spaces passes unchanged into the first field |
| Fen.FirstFieldUpToSpace | index.php:99 | the first field of `a + " " + b` is `a` |
| Fen.OnlyPlacementField | index.php:98-99 | side to move, castling and counters never reach the board |
| FenExamples.PieceRank | index.php:104-120 | eight pieces followed by '/' fill one rank and move to the next row |
| FenExamples.EmptyRank | index.php:109-115 | "8/" skips a whole rank |
| FenExamples.FourEmptyRanks | index.php:109-115 | "8/8/8/8/" skips four ranks |
| FenExamples.FirstRank | index.php:104-120 | the first full rank fills slots 0-7 |
| FenExamples.SecondRank | index.php:104-120 | the second full rank fills slots 8-15 |
| FenExamples.SeventhRank | index.php:104-120 | the seventh full rank fills slots 48-55 |
| FenExamples.EighthRank | index.php:104-120 | the last full rank fills slots 56-63 |
| FenExamples.StartRanks | index.php:104-121 | four full ranks around four empty ones give the expected 64 slots |
| FenExamples.StartCounts | index.php:100-120 | the start board has 16 white and 16 black pieces, k on slot 4 and K on slot 60 |
| FenExamples.StartText | index.php:98-99 | the placement of the start FEN is the text before its first space |
| FenExamples.StartLetters | index.php:116-117 | the four occupied ranks of the start FEN are eight piece letters each |
| FenExamples.StartPosition | index.php:96-123 | the standard start FEN parses to its 32 pieces in place, 16 per side, k at 4, K at 60 |
| FenExamples.OverflowDropsPiece | index.php:109-113 | "8K" gives an empty board: K is consumed by the overflow |
| FenExamples.SeparatorAfterFullRank | index.php:109-118 | "8/K" puts K on slot 8 |
| FenExamples.OverflowDropsOnlyOne | index.php:109-118 | "8KQ" drops K but places Q on slot 8: an overflow drops one character, not the rest of the rank |
| FenExamples.NoiseAbsorbsOverflow | index.php:109-118 | in "8wK" the noise 'w' is what the overflow consumes, so K lands on slot 8 |
| FenExamples.NoiseInsideRank | index.php:114-121 | in "7wK" the 'w' is ignored and K lands on slot 7 |
| FenExamples.SplitSkip | index.php:114-115 | "44/K" and "8/K" parse alike |
| FenExamples.OverlongSkip | index.php:109-115 | "45K" gives an empty board |
| FenExamples.NineIgnored | index.php:114-121 | '9' is not a skip digit and is ignored |
| FenExamples.ZeroIgnored | index.php:114-121 | '0' is not a skip digit and is ignored |
| FenExamples.NinthRankIgnored | index.php:106-107 | eight empty ranks and anything after them give an empty board |
| CacheKey.IsKept | index.php:67 | the characters the filter keeps; StripKept, StripIdentity and StripMembers show the filter keeps exactly these |
| CacheKey.Strip | index.php:67 | the filtered text is no longer than the input |
| CacheKey.StripKept | index.php:67 | the filtered text holds only kept characters |
| CacheKey.Join | index.php:64 | join of the three request fields with '_'; it is not injective in general ("a_b", "c" and "a", "b_c" join alike), but SplitFields reads the three fields back when the FEN and the size hold no '_', and SizeAndOrientationSeparate reads a decimal size and flag back for one FEN |
| CacheKey.HashInput | index.php:64-67 | the filtered join that is hashed; HashInputParts splits it into the filtered fields, StripKept bounds its characters |
| CacheKey.FileName | index.php:58-71 | the file name ends in ".png" |
| CacheKey.StripIdentity | index.php:67 | the filter leaves a text unchanged exactly when every character is kept |
| CacheKey.StripIdempotent | index.php:67 | filtering twice is filtering once |
| CacheKey.StripAppend | index.php:67 | the filter distributes over concatenation |
| CacheKey.StripMembers | index.php:67 | a character survives exactly when it occurs and is allowed |
| CacheKey.HashInputParts | index.php:64-67 | the hash input is filtered FEN, '_', filtered size, '_', filtered flag |
| CacheKey.SameFilteredSameName | index.php:58-71 | FENs that filter alike get the same file name, for any hash |
| CacheKey.DecimalKept | index.php:64-67 | decimal size and flag texts pass the filter unchanged |
| CacheKey.SplitAtUnderscore | index.php:64 | '_' separates a field without '_' from what follows |
| CacheKey.SizeAndOrientationSeparate | index.php:58-71 | for one FEN, different sizes or orientations never share a hash input |
| CacheKey.AsWrittenCollision | index.php:61-67 | "8/K" and "8K" share a hash input but parse to different boards |
| CacheKey.AsWrittenUsesCounters | index.php:61-64 | the move counters change the hash input as written |
| CacheKey.Slashes | index.php:61 | str_replace leaves no '/' in the text, keeps its length, and leaves text without '/' unchanged; SlashesInjective gives its inverse on text without '-' |
| CacheKey.IntendedHashInput | index.php:60-67 | the corrected key of the placement field with '-' for '/'; IntendedParts decomposes it and IntendedSeparatesPlacements proves it injective |
| CacheKey.IntendedFileName | index.php:60-71 | the corrected file name ends in ".png" |
| CacheKey.IntendedIgnoresCounters | index.php:60-61 | with the corrected key, fields after the first space do not affect the name |
| CacheKey.SlashesKept | index.php:61-67 | placement text with '-' for '/' passes the filter and holds no '_' |
| CacheKey.SlashesInjective | index.php:61 | replacing '/' by '-' loses nothing on text without '-' |
| CacheKey.IntendedParts | index.php:60-67 | the corrected hash input of placement text is text, '_', size, '_', flag |
| CacheKey.SplitFields | index.php:64 | three '_'-joined fields whose first two have no '_' can be read back |
| CacheKey.IntendedSeparatesPlacements | index.php:60-67 | with the corrected key, different well-formed placements, sizes or flags never share a hash input |
| Color.IsHex | index.php:190 | the characters hexdec reads as digits; HexValue bounds their value, HexPair reads two of them and HexChar writes one back |
| Color.HexValue | index.php:190 | a hex digit is worth less than 16 |
| Color.Pow16 | index.php:190 | powers of 16 are positive |
| Color.HexDec | index.php:190 | hexdec of k characters is below 16^k |
| Color.TrimHashes | index.php:192 | ltrim never lengthens the text |
| Color.TrimHashesSpec | index.php:192 | ltrim removes exactly the leading '#' characters: the result is a suffix that does not start with '#', and everything before it is '#' |
| Color.TrimOne | index.php:192 | one leading '#' before a text that does not start with '#' is removed |
| Color.Chunks | index.php:192-193 | str_split's pieces are each 1..n long, and all but the last are exactly n long |
| Color.ChunksFlatten | index.php:192-193 | str_split's pieces concatenate back to the text |
| Color.Pad | index.php:190 | str_pad keeps the piece as a prefix and makes a one- or two-character piece exactly two long; Bytes and ShortForm use it |
| Color.PieceLength | index.php:193 | the piece length is 2 when the text is longer than 4 characters and 1 otherwise |
| Color.Bytes | index.php:187-193 | one component per piece, each the piece padded with itself and read by hexdec, each at most 255 |
| Color.PaddedBytes | index.php:190 | a piece of one or two characters, padded and read, is at most 255 |
| Color.HexRgb | index.php:185-194 | every component is in [0, 255] |
| Color.HexPair | index.php:190 | two hex digits read as 16*high + low |
| Color.PairsOfSix | index.php:192-193 | six digits split into three pairs |
| Color.SinglesOfThree | index.php:192-193 | three digits split into three single characters |
| Color.LongForm | index.php:185-194 | "#rrggbb" gives one component per pair of digits |
| Color.ShortForm | index.php:185-194 | "#rgb" gives each digit doubled and read as hex |
| Color.ShortFormDigits | index.php:185-194 | "#rgb" gives 17 times the value of each hex digit |
| Color.LongFormDigits | index.php:185-194 | "#rrggbb" gives 16 * high + low for each pair of hex digits |
| Color.ShortFormDoubles | index.php:185-194 | "#rgb" and "#rrggbb" with each character doubled give the same components |
| Color.DarkSquareColour | index.php:4 | the dark square colour is [181, 135, 107] |
| Color.LiteSquareColour | index.php:5 | the light square colour is [240, 222, 199] |
| Color.ShortFormExample | index.php:181-194 | "#abc" is [170, 187, 204], the same as "#aabbcc" |
| Color.HexChar | index.php:190 | the digit written for a value reads back as that value |
| Color.ByteHex | index.php:190 | a byte is written as two hex digits |
| Color.ByteHexRoundTrip | index.php:190 | hexdec reads a byte's two hex digits back as the byte |
| Color.RoundTrip | index.php:185-194 | writing [r, g, b] as "#rrggbb" and converting it back gives [r, g, b] |
| Sprites.Upper | index.php:132 | strtoupper on one character leaves no lower-case letter and turns a lower-case letter into one Lower maps back; UpperString and IsUpperIff build on it |
| Sprites.Lower | index.php:142 | strtolower leaves no upper-case ASCII letter |
| Sprites.UpperString | index.php:132 | strtoupper keeps the length and leaves no lower-case ASCII letter |
| Sprites.IsUpper | index.php:130-133 | is_upper: the text equals its strtoupper form; IsUpperIff says when that holds |
| Sprites.IsUpperIff | index.php:130-133 | is_upper holds exactly when the text has no lower-case letter |
| Sprites.PieceColour | index.php:142 | a piece is upper case exactly when it is white |
| Sprites.SpriteName | index.php:140-144 | the name is 15 characters, "./pieces/" and ".png" around two letters; for a piece they are a colour letter (w or b) and a lower-case piece letter |
| Sprites.SpriteNameMapping | index.php:140-144 | a piece's sprite is "./pieces/", 'w' for KQRNBP and 'b' otherwise, the piece letter in lower case, and ".png" |
| Sprites.PieceOf | index.php:140-144 | a sprite name decodes only to a piece letter |
| Sprites.SpriteNameRoundTrip | index.php:140-144 | every piece's sprite name decodes back to the piece |
| Sprites.SpriteNameInjective | index.php:140-144 | no two of the twelve pieces share a sprite |
| Sprites.SpriteNameExamples | index.php:140-144 | Q is "./pieces/wq.png" and n is "./pieces/bn.png" |
| Sprites.Distinct | index.php:155 | array_unique keeps the same elements, each once |
| Sprites.PieceSet | index.php:152-165 | the piece letters that occur on a board; LoadSprites loads one sprite for each and ParsedBoardSprites shows a parsed board never adds ' ' |
| Sprites.LoadSprites | index.php:152-165 | the keys are exactly the distinct piece letters of the board, each mapped to its loaded sprite |
| Sprites.ParsedBoardSprites | index.php:152-165 | on a parsed board the keys are the occupied slots' letters and never ' ' |
| Render.SquareOf | index.php:238-239 | slot i lies at column i % 8 and row i / 8, both below 8, with row*8+col == i |
| Render.IndexOf | index.php:238-239 | a square's slot is below 64 |
| Render.SquareIndex | index.php:238-239 | squares and slots correspond one to one |
| Render.Mirror | index.php:241-245 | a turned square stays on the board |
| Render.Target | index.php:238-245 | the slot a piece is drawn on is on the board |
| Render.TargetReversed | index.php:238-245 | the target is the slot of the square add_pieces computes, mirrored when reversed, and turning twice gives the slot back |
| Render.IsDark | index.php:207 | a square is dark when row + col is odd; MirrorKeepsColour and Chequered give its properties |
| Render.SquareHex | index.php:207 | the colour string chosen by parity; SquareHexRgb gives its components |
| Render.MirrorKeepsColour | index.php:207 | turning keeps a square's colour |
| Render.MirrorColour | index.php:207 | slot 63 - t has the colour of slot t |
| Render.SquareHexRgb | index.php:207-208 | converting the chosen colour string gives the square's palette colour |
| Render.PaintedColour | index.php:207-208 | converting the colour string picked by the parity of (col, row) gives the palette colour of slot row*8+col |
| Render.SquareColour | index.php:207-208 | the colour draw_board computes for (col, row) is the palette colour of slot row*8+col |
| Render.Chequered | index.php:207 | the top-left and bottom-right squares are light, and neighbours along a row or a column differ in colour |
| Render.Drawn | index.php:249-251 | the sprite drawn for a slot: its loaded sprite if the slot holds a piece with a sprite entry that loaded; EmptySkipped and PieceDrawn use it |
| Render.AfterPieces | index.php:228-257 | the canvas after add_pieces keeps 64 squares |
| Render.Canvas.constructor | index.php:172-178 | a new canvas is black with no sprites |
| Render.Canvas.DrawBoard | index.php:200-219 | every square is filled with the dark or light colour by parity |
| Render.Canvas.AddPieces | index.php:228-257 | each square gets the loaded sprite of the piece that lands on it, and is otherwise unchanged |
| Render.EmptySkipped | index.php:234-236 | an empty slot leaves its square as it was |
| Render.PieceDrawn | index.php:247-255 | a piece whose sprite loaded is drawn on its square |
| Render.ReversedIsTurned | index.php:241-245 | on a blank canvas the reversed picture is the plain one turned, and square colours agree |
| Render.Draw | index.php:39-47 | the picture of a request is the parsed board's sprites drawn over the chequered squares |

## Left out

- The input validation of `filter_input_array` (index.php:11-28) is not modelled.
  Size and orientation enter as the decimal text PHP would produce.
- `try_cached_file` and `output_image` are not modelled. They are file system and HTTP
  I/O.
- The top-level cache hit/miss decision (index.php:36-37) is not modelled. `Draw`
  models only the miss path.
- The body of `md5` is a parameter.
- `create_image`'s failure when GD is missing, and the "GD error" exit, are not
  modelled. The `Canvas` constructor models the successful case only.
- These GD calls are not modelled: `imagecolorallocate`, `imagefilledrectangle`,
  `imagecopyresampled` with its scaling, `imagetruecolortopalette`, and `cleanup`'s
  `imagedestroy`. The canvas keeps squares and sprites as two layers, with the
  sprite layer drawn over the fills in that order.
- Pixel coordinates and the `imagesx($img)/8` division are not modelled. A square is
  a (column, row) pair.
- A missing `$sprites[$p]` entry, which is a PHP warning yielding null, is modelled as
  nothing drawn.
- `strtoupper` and `strtolower` are modelled on ASCII letters only, as in PHP 8.2 and
  later.
- `str_split("")` is modelled as the empty list, as in PHP 8.2 and later.

Two details of the overfull-row case (index.php:109-113), as the code behaves:

- An overfull row (col > 7) consumes the character that finds it overfull, whatever
  that character is. The character is not read again on the next row.
- Only that one character is dropped. The rest of the rank is not skipped up to the
  next '/'.

## Findings

| source | as written | input that shows it | evidently intended | confidence | as-written member | corrected member |
|---|---|---|---|---|---|---|
| index.php:60-67 | line 61 computes the placement field with '/' replaced by '-' and discards it, so the whole FEN is joined and the filter deletes every '/' | the FENs "8/K" and "8K" give the same hash input, but one board has K on slot 8 and the other is empty | hash only the placement field, with '/' turned into '-' (the comment on line 60) | not executed | CacheKey.AsWrittenCollision | CacheKey.IntendedSeparatesPlacements |

`CacheKey.FileName` models the code as written. `CacheKey.IntendedFileName` is the
corrected key. Its hash input is injective on well-formed placement fields, sizes and
flags, and it ignores everything after the first space.
