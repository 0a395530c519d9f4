/** The lenient parser for the piece-placement field of Forsyth-Edwards Notation
    (parse_fen in index.php). The board is 64 slots, row-major from the 8th rank,
    each holding ' ' or one of the twelve piece letters. */
module Fen {

  /** The piece letters the parser places; upper case is white, lower case black. */
  const Pieces: string := "kqrnbpKQRNBP"
  /** The digits that skip empty squares. */
  const Digits: string := "12345678"
  /** The value of an empty slot. */
  const Empty: char := ' '
  /** The character that separates the fields of a FEN string. */
  const Space: char := ' '
  /** The board every parse starts from. */
  function EmptyBoard(): seq<char>
  {
    seq(64, _ => Empty)
  }

  predicate IsPiece(c: char) { c in Pieces }

  predicate IsDigit(c: char) { c in Digits }

  /** The number of empty squares a digit stands for (intval of the digit). */
  function DigitValue(c: char): (n: nat)
    requires IsDigit(c)
    ensures 1 <= n <= 8
  {
    (c as int) - ('0' as int)
  }

  /** Every slot is empty or holds a piece letter. */
  predicate SlotsOk(board: seq<char>)
  {
    forall k :: 0 <= k < |board| ==> board[k] == Empty || IsPiece(board[k])
  }

  /** The first space-delimited field of a FEN string: `explode(' ', $fen)[0]`. */
  function FirstField(s: string): (f: string)
    ensures f <= s
    ensures Space !in f
    ensures |f| < |s| ==> s[|f|] == Space
  {
    if s == [] || s[0] == Space then [] else [s[0]] + FirstField(s[1..])
  }

  /** The parser's variables between two characters. */
  datatype State = State(board: seq<char>, row: nat, col: nat)

  const Start: State := State(EmptyBoard(), 0, 0)

  /** One pass of the loop body for a row that is still on the board (row <= 7). */
  function Step(st: State, c: char): (r: State)
    requires |st.board| == 64 && st.row <= 7
    ensures |r.board| == 64
  {
    if c == '/' || st.col > 7 then State(st.board, st.row + 1, 0)
    else if IsDigit(c) then State(st.board, st.row, st.col + DigitValue(c))
    else if IsPiece(c) then State(st.board[st.row * 8 + st.col := c], st.row, st.col + 1)
    else st
  }

  /** The whole foreach loop from state `st` over `cs`, including its break once row > 7. */
  function Scan(st: State, cs: string): (r: State)
    requires |st.board| == 64
    ensures |r.board| == 64 && r.row >= st.row
    decreases |cs|
  {
    if cs == [] || st.row > 7 then st else Scan(Step(st, cs[0]), cs[1..])
  }

  /** One character read from a state still on the board is one step. */
  lemma ScanCons(st: State, cs: string)
    requires |st.board| == 64 && st.row <= 7 && cs != []
    ensures Scan(st, cs) == Scan(Step(st, cs[0]), cs[1..])
  {
  }

  /** The board parse_fen returns. */
  function Parse(fen: string): (board: seq<char>)
    ensures |board| == 64
  {
    Scan(Start, FirstField(fen)).board
  }

  /** parse_fen: the foreach loop, with the board as an array written in place. */
  method ParseFen(fen: string) returns (board: seq<char>)
    ensures board == Parse(fen)
  {
    var chars := FirstField(fen);
    var b := new char[64](_ => Empty);
    var row: nat, col: nat := 0, 0;
    var i := 0;
    assert b[..] == EmptyBoard();
    while i < |chars|
      invariant 0 <= i <= |chars|
      invariant Scan(State(b[..], row, col), chars[i..]) == Scan(Start, chars)
    {
      var c := chars[i];
      if row > 7 {
        break;
      }
      ghost var next := Step(State(b[..], row, col), c);
      ScanCons(State(b[..], row, col), chars[i..]);
      assert chars[i..][1..] == chars[i + 1..];
      if c == '/' || col > 7 {
        row, col := row + 1, 0;
      } else if IsDigit(c) {
        col := col + DigitValue(c);
      } else if IsPiece(c) {
        b[row * 8 + col] := c;
        col := col + 1;
      }
      assert State(b[..], row, col) == next;
      i := i + 1;
    }
    board := b[..];
  }

  // ---------------------------------------------------------------------------
  // Properties of the parser

  /** The only slot a step can change is row*8+col, only while col <= 7, and only to
      the piece letter read. */
  lemma StepFrame(st: State, c: char)
    requires |st.board| == 64 && st.row <= 7
    ensures forall k :: 0 <= k < 64 && Step(st, c).board[k] != st.board[k] ==>
              st.col <= 7 && k == st.row * 8 + st.col && Step(st, c).board[k] == c && IsPiece(c)
  {
  }

  /** Scanning a concatenation is scanning the parts in turn. */
  lemma {:induction false} ScanAppend(st: State, a: string, b: string)
    requires |st.board| == 64
    ensures Scan(st, a + b) == Scan(Scan(st, a), b)
    decreases |a|
  {
    if a == [] {
      assert a + b == b;
    } else if st.row <= 7 {
      assert (a + b)[1..] == a[1..] + b;
      ScanAppend(Step(st, a[0]), a[1..], b);
    }
  }

  /** Scanning keeps every slot empty or a piece letter, and every slot it changes
      holds a letter taken from the scanned text. */
  lemma {:induction false} ScanSlots(st: State, cs: string)
    requires |st.board| == 64 && SlotsOk(st.board)
    ensures SlotsOk(Scan(st, cs).board)
    ensures forall k :: 0 <= k < 64 && Scan(st, cs).board[k] != st.board[k] ==>
              Scan(st, cs).board[k] in cs
    decreases |cs|
  {
    if cs != [] && st.row <= 7 {
      var s1 := Step(st, cs[0]);
      StepFrame(st, cs[0]);
      ScanSlots(s1, cs[1..]);
      forall k | 0 <= k < 64 && Scan(st, cs).board[k] != st.board[k]
        ensures Scan(st, cs).board[k] in cs
      {
        if Scan(st, cs).board[k] == s1.board[k] {
          assert s1.board[k] == cs[0];
        } else {
          assert Scan(st, cs).board[k] in cs[1..];
        }
      }
    }
  }

  /** parse_fen always yields 64 slots, each empty or a piece letter, and every
      piece on the board occurs in the first field of the FEN string. */
  lemma ParseShape(fen: string)
    ensures |Parse(fen)| == 64
    ensures SlotsOk(Parse(fen))
    ensures forall k :: 0 <= k < 64 && Parse(fen)[k] != Empty ==> Parse(fen)[k] in FirstField(fen)
  {
    ScanSlots(Start, FirstField(fen));
  }

  /** Once the row counter passes the 8th rank nothing more is read. */
  lemma StopsAfterEighthRank(st: State, a: string, b: string)
    requires |st.board| == 64 && Scan(st, a).row > 7
    ensures Scan(st, a + b) == Scan(st, a)
  {
    ScanAppend(st, a, b);
  }

  /** A '/' that ends the 8th rank closes the board: whatever follows it is dropped. */
  lemma NoNinthRank(st: State, a: string, b: string)
    requires |st.board| == 64 && Scan(st, a).row == 7
    ensures Scan(st, a + ['/'] + b).board == Scan(st, a).board
  {
    ScanAppend(st, a, ['/'] + b);
    assert a + ['/'] + b == a + (['/'] + b);
    ScanAppend(Scan(st, a), ['/'], b);
  }

  /** A character other than '/', a digit 1-8 or a piece letter, read while the row is
      not yet full (col <= 7), changes neither the board nor the counters. */
  lemma NoiseIgnored(st: State, a: string, c: char, b: string)
    requires |st.board| == 64 && Scan(st, a).col <= 7
    requires c != '/' && !IsDigit(c) && !IsPiece(c)
    ensures Scan(st, a + [c] + b) == Scan(st, a + b)
  {
    ScanAppend(st, a, [c] + b);
    assert a + [c] + b == a + ([c] + b);
    ScanAppend(Scan(st, a), [c], b);
    ScanAppend(st, a, b);
  }

  /** A character read once the row is overfull (col > 7) only moves to the next row:
      it is consumed without being placed, whatever it is. */
  lemma OverflowConsumes(st: State, a: string, c: char, b: string)
    requires |st.board| == 64
    requires Scan(st, a).row <= 7 && Scan(st, a).col > 7
    ensures Scan(st, a + [c] + b) ==
            Scan(State(Scan(st, a).board, Scan(st, a).row + 1, 0), b)
  {
    ScanAppend(st, a, [c] + b);
    assert a + [c] + b == a + ([c] + b);
    ScanAppend(Scan(st, a), [c], b);
  }

  /** Every character of p is a piece letter. */
  predicate AllPieces(p: string)
    decreases |p|
  {
    p == [] || (IsPiece(p[0]) && AllPieces(p[1..]))
  }

  /** AllPieces holds exactly when every position holds a piece letter. */
  lemma {:induction false} AllPiecesIff(p: string)
    ensures AllPieces(p) <==> forall j :: 0 <= j < |p| ==> IsPiece(p[j])
    decreases |p|
  {
    if p != [] {
      AllPiecesIff(p[1..]);
      assert forall j :: 1 <= j < |p| ==> p[1..][j - 1] == p[j];
    }
  }

  /** A run of piece letters that fits in the current row is written to consecutive
      slots from row*8+col on, in order, and nothing else changes. */
  lemma {:induction false} PlacesRun(st: State, p: string)
    requires |st.board| == 64 && st.row <= 7 && st.col + |p| <= 8 && AllPieces(p)
    ensures Scan(st, p) == State(st.board[..st.row * 8 + st.col] + p + st.board[st.row * 8 + st.col + |p|..],
                                 st.row, st.col + |p|)
    decreases |p|
  {
    var k := st.row * 8 + st.col;
    if p == [] {
      assert st.board[..k] + p + st.board[k..] == st.board;
    } else {
      var s1 := Step(st, p[0]);
      StepPiece(st, p[0]);
      var tail := p[1..];
      assert Scan(st, p) == Scan(s1, tail);
      PlacesRun(s1, tail);
      var b1 := s1.board;
      assert Scan(s1, tail).board == b1[..k + 1] + tail + b1[k + 1 + |tail|..];
      Splice(st.board, k, p);
    }
  }

  /** A piece letter read while the row has room is written at row*8+col. */
  lemma StepPiece(st: State, c: char)
    requires |st.board| == 64 && st.row <= 7 && st.col <= 7 && IsPiece(c)
    ensures Step(st, c) == State(st.board[st.row * 8 + st.col := c], st.row, st.col + 1)
  {
    assert c != '/' && !IsDigit(c);
  }

  /** A '/' read on the board moves to the start of the next row. */
  lemma StepSlash(st: State)
    requires |st.board| == 64 && st.row <= 7
    ensures Step(st, '/') == State(st.board, st.row + 1, 0)
  {
  }

  /** A digit read while the row has room moves the column on by its value. */
  lemma StepDigit(st: State, c: char)
    requires |st.board| == 64 && st.row <= 7 && st.col <= 7 && IsDigit(c)
    ensures Step(st, c) == State(st.board, st.row, st.col + DigitValue(c))
  {
  }

  /** Any character read once the row is overfull moves to the next row. */
  lemma StepOverflow(st: State, c: char)
    requires |st.board| == 64 && st.row <= 7 && st.col > 7
    ensures Step(st, c) == State(st.board, st.row + 1, 0)
  {
  }

  /** Any other character read while the row has room changes nothing. */
  lemma StepNoise(st: State, c: char)
    requires |st.board| == 64 && st.row <= 7 && st.col <= 7
    requires c != '/' && !IsDigit(c) && !IsPiece(c)
    ensures Step(st, c) == st
  {
  }

  /** Writing p[0] at k and then the rest of p after it writes p at k. */
  lemma Splice(b: seq<char>, k: nat, p: string)
    requires p != [] && k + |p| <= |b|
    ensures b[k := p[0]][..k + 1] + p[1..] + b[k := p[0]][k + 1 + |p[1..]|..] == b[..k] + p + b[k + |p|..]
  {
    var b1 := b[k := p[0]];
    assert b1[..k + 1] == b[..k] + [p[0]];
    assert b1[k + 1 + |p[1..]|..] == b[k + |p|..];
    assert [p[0]] + p[1..] == p;
    assert b[..k] + [p[0]] + p[1..] == b[..k] + p;
  }

  /** Text without spaces passes through to the first field unchanged. */
  lemma {:induction false} FirstFieldPrefix(a: string, b: string)
    requires Space !in a
    ensures FirstField(a + b) == a + FirstField(b)
    decreases |a|
  {
    if a == [] {
      assert a + b == b;
    } else {
      assert a[0] in a;
      var ab := a + b;
      assert ab[0] == a[0] && ab[1..] == a[1..] + b;
      assert FirstField(ab) == [a[0]] + FirstField(a[1..] + b);
      FirstFieldPrefix(a[1..], b);
      assert a + FirstField(b) == [a[0]] + (a[1..] + FirstField(b));
    }
  }

  /** A field without spaces is its own first field, and stays so when a space and
      any further fields follow it. */
  lemma FirstFieldUpToSpace(a: string, b: string)
    requires Space !in a
    ensures FirstField(a) == a
    ensures FirstField(a + [Space] + b) == a
  {
    FirstFieldPrefix(a, []);
    assert a + [] == a;
    FirstFieldPrefix(a, [Space] + b);
    assert a + [Space] + b == a + ([Space] + b);
  }

  /** Only the text before the first space is parsed: side to move, castling rights
      and the move counters never reach the board. */
  lemma OnlyPlacementField(a: string, b: string)
    requires Space !in a
    ensures Parse(a + [Space] + b) == Parse(a)
  {
    FirstFieldUpToSpace(a, b);
  }
}
