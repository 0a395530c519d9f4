/** The drawing of index.php: the squares of draw_board and the pieces of add_pieces, on
    a canvas of 8x8 squares. Pixel coordinates are not modelled: a square is drawn or
    not, in a colour or with a sprite. */
module Render {
  import opened Fen
  import opened Color
  import opened Sprites

  // ---------------------------------------------------------------------------
  // Geometry

  /** A square of the picture, column 0-7 from the left and row 0-7 from the top. */
  datatype Square = Square(col: nat, row: nat)

  /** The square of board slot i: `col = i % 8`, `row = (i - col) / 8`. */
  function SquareOf(i: nat): (sq: Square)
    requires i < 64
    ensures sq.col < 8 && sq.row < 8
    ensures sq.row * 8 + sq.col == i
  {
    var col := i % 8;
    Square(col, (i - col) / 8)
  }

  /** The slot of a square. */
  function IndexOf(sq: Square): (i: nat)
    requires sq.col < 8 && sq.row < 8
    ensures i < 64
  {
    sq.row * 8 + sq.col
  }

  /** Slots and squares correspond one to one. */
  lemma SquareIndex(sq: Square)
    requires sq.col < 8 && sq.row < 8
    ensures SquareOf(IndexOf(sq)) == sq
  {
    var i := IndexOf(sq);
    assert i % 8 == sq.col && (i - sq.col) / 8 == sq.row;
  }

  /** The board seen from black's side: the square turned half a turn. */
  function Mirror(sq: Square): (m: Square)
    requires sq.col < 8 && sq.row < 8
    ensures m.col < 8 && m.row < 8
  {
    Square(7 - sq.col, 7 - sq.row)
  }

  /** The slot a piece of slot i is drawn on: the same slot, or slot 63 - i when the
      board is seen from black's side. */
  function Target(i: nat, reversed: bool): (t: nat)
    requires i < 64
    ensures t < 64
  {
    if reversed then 63 - i else i
  }

  /** The slot is the one add_pieces computes from the square of slot i, mirrored when
      reversed; turning twice gives the slot back. */
  lemma TargetReversed(i: nat, reversed: bool)
    requires i < 64
    ensures Target(i, reversed) == IndexOf(if reversed then Mirror(SquareOf(i)) else SquareOf(i))
    ensures Target(Target(i, reversed), reversed) == i
  {
    var sq := SquareOf(i);
    assert IndexOf(Mirror(sq)) == 63 - (sq.row * 8 + sq.col);
  }

  /** A dark square: `(row + col) % 2 === 1`. */
  predicate IsDark(sq: Square)
  {
    (sq.row + sq.col) % 2 == 1
  }

  /** Turning the board keeps the colour of every square. */
  lemma MirrorKeepsColour(sq: Square)
    requires sq.col < 8 && sq.row < 8
    ensures IsDark(Mirror(sq)) <==> IsDark(sq)
  {
    var x := sq.row + sq.col;
    assert Mirror(sq).row + Mirror(sq).col == 14 - x;
    assert x == 2 * (x / 2) + x % 2;
    assert 14 - x == 2 * (7 - x / 2) - x % 2;
  }

  /** The colour string draw_board picks for a square. */
  function SquareHex(sq: Square): string
  {
    if IsDark(sq) then DarkSquare else LiteSquare
  }

  /** The components of the square colours, written out. */
  function SquareRgb(sq: Square): seq<nat>
  {
    if IsDark(sq) then [181, 135, 107] else [240, 222, 199]
  }

  /** Converting the square's colour string gives those components. */
  lemma SquareHexRgb(sq: Square)
    ensures HexRgb(SquareHex(sq)) == SquareRgb(sq)
  {
    if IsDark(sq) {
      DarkSquareColour(SquareHex(sq));
    } else {
      LiteSquareColour(SquareHex(sq));
    }
  }

  /** The colour of slot k. */
  function SlotRgb(k: nat): seq<nat>
    requires k < 64
  {
    SquareRgb(SquareOf(k))
  }

  /** The colour draw_board computes for a square is the one of its slot. */
  lemma PaintedColour(col: nat, row: nat, hex: string)
    requires col < 8 && row < 8
    requires hex == SquareHex(Square(col, row))
    ensures HexRgb(hex) == SlotRgb(row * 8 + col)
  {
    var sq := Square(col, row);
    SquareIndex(sq);
    assert SquareOf(IndexOf(sq)) == sq;
    assert SlotRgb(row * 8 + col) == SquareRgb(sq);
    SquareHexRgb(sq);
  }

  /** The first two statements of draw_board's loop body: the colour string picked by
      parity and converted by hex_rgb. */
  method SquareColour(col: nat, row: nat) returns (rgb: seq<nat>)
    requires col < 8 && row < 8
    ensures rgb == SlotRgb(row * 8 + col)
  {
    var hex := SquareHex(Square(col, row));
    rgb := HexRgb(hex);
    PaintedColour(col, row, hex);
  }

  /** The top-left and bottom-right corners are light, and neighbours along a row or a
      column differ in colour. */
  lemma Chequered(sq: Square)
    requires sq.col < 8 && sq.row < 8
    ensures !IsDark(Square(0, 0)) && !IsDark(Square(7, 7))
    ensures sq.col < 7 ==> (IsDark(Square(sq.col + 1, sq.row)) <==> !IsDark(sq))
    ensures sq.row < 7 ==> (IsDark(Square(sq.col, sq.row + 1)) <==> !IsDark(sq))
  {
  }

  // ---------------------------------------------------------------------------
  // The canvas

  /** What add_pieces draws for slot i: the loaded sprite of its piece, if the slot is
      not empty, the piece has a sprite entry and the sprite loaded. */
  function Drawn<Image>(board: seq<char>, sprites: map<char, Option<Image>>, i: nat): Option<Image>
    requires i < |board|
  {
    if board[i] != Empty && board[i] in sprites then sprites[board[i]] else None
  }

  /** The sprites on the canvas after add_pieces, from those before it. */
  function AfterPieces<Image>(before: seq<Option<Image>>, board: seq<char>,
                              sprites: map<char, Option<Image>>, reversed: bool): (after: seq<Option<Image>>)
    requires |before| == 64 && |board| == 64
    ensures |after| == 64
  {
    seq(64, t requires 0 <= t < 64 =>
      var i := Target(t, reversed);
      if Drawn(board, sprites, i).Some? then Drawn(board, sprites, i) else before[t])
  }

  /** A picture of 8x8 squares: each square's fill colour and the sprite drawn on it. */
  class Canvas<Image> {
    var fills: array<seq<nat>>
    var pieces: array<Option<Image>>

    predicate Valid()
      reads this
    {
      fills.Length == 64 && pieces.Length == 64
    }

    /** create_image: a black picture with nothing on it. */
    constructor ()
      ensures Valid() && fresh(fills) && fresh(pieces)
      ensures forall k :: 0 <= k < 64 ==> fills[k] == [0, 0, 0] && pieces[k] == None
    {
      fills := new seq<nat>[64](_ => [0, 0, 0]);
      pieces := new Option<Image>[64](_ => None);
    }

    /** draw_board: every square filled with the dark or light colour by its parity. */
    method DrawBoard()
      requires Valid()
      modifies fills
      ensures Valid()
      ensures forall k :: 0 <= k < 64 ==> fills[k] == SlotRgb(k)
    {
      for row := 0 to 8
        invariant forall k :: 0 <= k < row * 8 ==> fills[k] == SlotRgb(k)
      {
        for col := 0 to 8
          invariant forall k :: 0 <= k < row * 8 + col ==> fills[k] == SlotRgb(k)
        {
          var rgb := SquareColour(col, row);
          fills[row * 8 + col] := rgb;
        }
      }
    }

    /** add_pieces: each non-empty slot's loaded sprite drawn on its square, turned
        when the board is reversed. */
    method AddPieces(board: seq<char>, reversed: bool, sprites: map<char, Option<Image>>)
      requires Valid() && |board| == 64
      modifies pieces
      ensures Valid()
      ensures pieces[..] == AfterPieces(old(pieces[..]), board, sprites, reversed)
    {
      ghost var before := pieces[..];
      for i := 0 to 64
        invariant forall t :: 0 <= t < 64 ==>
          pieces[t] == (if Target(t, reversed) < i && Drawn(board, sprites, Target(t, reversed)).Some?
                        then Drawn(board, sprites, Target(t, reversed)) else before[t])
      {
        var p := board[i];
        if p == Empty {
          continue;
        }
        var col := i % 8;
        var row := (i - col) / 8;
        if reversed {
          col, row := 7 - col, 7 - row;
        }
        TargetReversed(i, reversed);
        assert row * 8 + col == Target(i, reversed);
        if p in sprites && sprites[p].Some? {
          pieces[row * 8 + col] := sprites[p];
        }
      }
    }
  }

  // ---------------------------------------------------------------------------
  // Properties of the drawing

  /** An empty slot leaves its square as it was. */
  lemma EmptySkipped<Image>(before: seq<Option<Image>>, board: seq<char>,
                            sprites: map<char, Option<Image>>, reversed: bool, i: nat)
    requires |before| == 64 && |board| == 64 && i < 64 && board[i] == Empty
    ensures AfterPieces(before, board, sprites, reversed)[Target(i, reversed)] == before[Target(i, reversed)]
  {
  }

  /** A piece whose sprite loaded is drawn on its square. */
  lemma PieceDrawn<Image>(before: seq<Option<Image>>, board: seq<char>,
                          sprites: map<char, Option<Image>>, reversed: bool, i: nat, img: Image)
    requires |before| == 64 && |board| == 64 && i < 64
    requires board[i] != Empty && board[i] in sprites && sprites[board[i]] == Some(img)
    ensures AfterPieces(before, board, sprites, reversed)[Target(i, reversed)] == Some(img)
  {
  }

  /** On a blank canvas the reversed picture is the plain one turned half a turn, and a
      piece is on a square of the same colour in both. */
  lemma ReversedIsTurned<Image>(blank: seq<Option<Image>>, board: seq<char>,
                                sprites: map<char, Option<Image>>, t: nat)
    requires |blank| == 64 && |board| == 64 && t < 64
    requires forall k :: 0 <= k < 64 ==> blank[k] == None
    ensures AfterPieces(blank, board, sprites, true)[63 - t] == AfterPieces(blank, board, sprites, false)[t]
    ensures IsDark(SquareOf(63 - t)) <==> IsDark(SquareOf(t))
  {
    MirrorColour(t);
  }

  /** Slot 63 - t has the colour of slot t. */
  lemma MirrorColour(t: nat)
    requires t < 64
    ensures IsDark(SquareOf(63 - t)) <==> IsDark(SquareOf(t))
  {
    var sq := SquareOf(t);
    var m := Mirror(sq);
    assert SquareOf(63 - t) == m by {
      TargetReversed(t, true);
      SquareIndex(m);
    }
    MirrorKeepsColour(sq);
  }

  /** The picture of a request (the cache miss of index.php): parse the FEN, load the
      needed sprites, create the canvas, draw the squares and then the pieces. */
  method Draw<Image>(fen: string, reversed: bool, load: string -> Option<Image>)
    returns (canvas: Canvas<Image>)
    ensures fresh(canvas) && canvas.Valid()
    ensures forall k :: 0 <= k < 64 ==> canvas.fills[k] == SlotRgb(k)
    ensures canvas.pieces[..] ==
            AfterPieces(seq(64, _ => None), Parse(fen),
                        map p | p in PieceSet(Parse(fen)) :: load(SpriteName(p)), reversed)
  {
    var board := ParseFen(fen);
    ParseShape(fen);
    var sprites := LoadSprites(board, load);
    assert sprites == map p | p in PieceSet(board) :: load(SpriteName(p));
    canvas := new Canvas();
    assert canvas.pieces[..] == seq(64, _ => None);
    canvas.DrawBoard();
    canvas.AddPieces(board, reversed, sprites);
  }
}
