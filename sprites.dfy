/** The piece sprites of index.php: is_upper, get_sprite_name and load_sprites. Loading a
    PNG file is a parameter of the model; it yields an image or nothing (false). */
module Sprites {
  import opened Fen

  datatype Option<T> = None | Some(value: T)

  /** The directory the sprites live in. */
  const SpritePath: string := "./pieces/"

  /** strtoupper and strtolower on one character: ASCII letters only. */
  function Upper(c: char): (u: char)
    ensures !('a' <= u <= 'z')
    ensures 'a' <= c <= 'z' ==> Lower(u) == c
  {
    if 'a' <= c <= 'z' then ((c as int) - 32) as char else c
  }

  function Lower(c: char): (l: char)
    ensures !('A' <= l <= 'Z')
  {
    if 'A' <= c <= 'Z' then ((c as int) + 32) as char else c
  }

  function UpperString(s: string): (u: string)
    ensures |u| == |s| && forall i :: 0 <= i < |s| ==> u[i] == Upper(s[i])
    ensures forall i :: 0 <= i < |u| ==> !('a' <= u[i] <= 'z')
  {
    seq(|s|, i requires 0 <= i < |s| => Upper(s[i]))
  }

  /** is_upper: the text equals its upper-case form. */
  predicate IsUpper(s: string)
  {
    s == UpperString(s)
  }

  /** A text is upper case exactly when it holds no lower-case ASCII letter. */
  lemma IsUpperIff(s: string)
    ensures IsUpper(s) <==> forall i :: 0 <= i < |s| ==> !('a' <= s[i] <= 'z')
  {
    if IsUpper(s) {
      forall i | 0 <= i < |s| ensures !('a' <= s[i] <= 'z') {
        assert UpperString(s)[i] == s[i];
      }
    }
  }

  /** White pieces are the upper-case letters. */
  lemma PieceColour(p: char)
    requires IsPiece(p)
    ensures IsUpper([p]) <==> p in "KQRNBP"
  {
    IsUpperIff([p]);
  }

  /** get_sprite_name: the colour letter ('w' or 'b') and the lower-case piece letter. */
  function SpriteName(p: char): (name: string)
    ensures |name| == 15 && name[..9] == SpritePath && name[11..] == ".png"
    ensures IsPiece(p) ==> name[9] in "wb" && name[10] in "kqrnbp"
  {
    SpritePath + [if IsUpper([p]) then 'w' else 'b', Lower(p)] + ".png"
  }

  /** The sprite of a piece, spelt out: 'w' for the six upper-case letters, 'b' for the
      rest, then the piece letter in lower case. */
  lemma SpriteNameMapping(p: char)
    requires IsPiece(p)
    ensures SpriteName(p) == SpritePath + [if p in "KQRNBP" then 'w' else 'b', Lower(p)] + ".png"
  {
    PieceColour(p);
  }

  /** The piece a sprite file stands for, if it is one. */
  function PieceOf(name: string): (p: Option<char>)
    ensures p.Some? ==> IsPiece(p.value)
  {
    if |name| == 15 && name[..9] == SpritePath && name[11..] == ".png" && name[10] in "kqrnbp" then
      if name[9] == 'w' then Some(Upper(name[10]))
      else if name[9] == 'b' then Some(name[10])
      else None
    else None
  }

  /** Every piece's sprite name leads back to the piece. */
  lemma SpriteNameRoundTrip(p: char)
    requires IsPiece(p)
    ensures PieceOf(SpriteName(p)) == Some(p)
  {
    PieceColour(p);
    var name := SpriteName(p);
    assert name[9] == (if IsUpper([p]) then 'w' else 'b') && name[10] == Lower(p);
  }

  /** So no two pieces share a sprite. */
  lemma SpriteNameInjective(p: char, q: char)
    requires IsPiece(p) && IsPiece(q) && SpriteName(p) == SpriteName(q)
    ensures p == q
  {
    SpriteNameRoundTrip(p);
    SpriteNameRoundTrip(q);
  }

  /** The white queen and the black knight. */
  lemma SpriteNameExamples()
    ensures SpriteName('Q') == "./pieces/wq.png"
    ensures SpriteName('n') == "./pieces/bn.png"
  {
    IsUpperIff(['Q']);
    assert UpperString(['n'])[0] == 'N';
  }

  /** array_unique: every element of the sequence, each once. */
  function Distinct(s: seq<char>): (d: seq<char>)
    ensures forall c :: c in d <==> c in s
    ensures forall i, j :: 0 <= i < j < |d| ==> d[i] != d[j]
    decreases |s|
  {
    if s == [] then []
    else
      var init, last := s[..|s| - 1], s[|s| - 1];
      assert s == init + [last];
      if last in init then Distinct(init) else Distinct(init) + [last]
  }

  /** The keys load_sprites gives a board: its distinct piece letters. */
  function PieceSet(board: seq<char>): set<char>
  {
    set c | c in board && IsPiece(c)
  }

  /** load_sprites: one loaded sprite for each distinct piece letter on the board. */
  method LoadSprites<Image>(board: seq<char>, load: string -> Option<Image>)
    returns (sprites: map<char, Option<Image>>)
    ensures sprites.Keys == PieceSet(board)
    ensures forall p :: p in sprites ==> sprites[p] == load(SpriteName(p))
  {
    var chars := Distinct(board);
    sprites := map[];
    var i := 0;
    while i < |chars|
      invariant 0 <= i <= |chars|
      invariant sprites.Keys == set c | c in chars[..i] && IsPiece(c)
      invariant forall p :: p in sprites ==> sprites[p] == load(SpriteName(p))
    {
      var c := chars[i];
      assert chars[..i + 1] == chars[..i] + [c];
      if IsPiece(c) {
        sprites := sprites[c := load(SpriteName(c))];
      }
      i := i + 1;
    }
    assert chars[..i] == chars;
  }

  /** On a parsed board the sprite keys are exactly the occupied slots' letters; the
      empty slot never gets a sprite. */
  lemma ParsedBoardSprites(fen: string)
    ensures PieceSet(Parse(fen)) == set k | 0 <= k < 64 && Parse(fen)[k] != Empty :: Parse(fen)[k]
    ensures Empty !in PieceSet(Parse(fen))
  {
    var board := Parse(fen);
    ParseShape(fen);
    forall c | c in PieceSet(board)
      ensures c in set k | 0 <= k < 64 && board[k] != Empty :: board[k]
    {
      var k :| 0 <= k < 64 && board[k] == c;
      assert board[k] != Empty;
    }
  }
}
