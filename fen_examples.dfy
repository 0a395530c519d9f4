/** Worked parses of concrete placement strings: the standard start position and the
    overflow and noise cases of the lenient scanner. */
module FenExamples {
  import opened Fen

  /** n empty slots. */
  function Blank(n: nat): seq<char> { seq(n, _ => Empty) }

  /** White pieces are the upper-case letters, black the lower-case ones. */
  predicate IsWhite(c: char) { 'A' <= c <= 'Z' }

  /** The number of slots holding a piece of the given side. */
  function CountSide(board: seq<char>, white: bool): nat
  {
    if board == [] then 0
    else CountSide(board[..|board| - 1], white)
         + (if IsPiece(board[|board| - 1]) && IsWhite(board[|board| - 1]) == white then 1 else 0)
  }

  lemma {:induction false} CountSideAppend(a: seq<char>, b: seq<char>, white: bool)
    ensures CountSide(a + b, white) == CountSide(a, white) + CountSide(b, white)
    decreases |b|
  {
    if b == [] {
      assert a + b == a;
    } else {
      assert (a + b)[..|a + b| - 1] == a + b[..|b| - 1];
      CountSideAppend(a, b[..|b| - 1], white);
    }
  }

  /** A run of pieces all of one side counts fully for that side and not for the other. */
  lemma {:induction false} CountSideUniform(s: seq<char>, white: bool)
    requires forall j :: 0 <= j < |s| ==> IsPiece(s[j]) && IsWhite(s[j]) == white
    ensures CountSide(s, white) == |s| && CountSide(s, !white) == 0
    decreases |s|
  {
    if s != [] {
      CountSideUniform(s[..|s| - 1], white);
    }
  }

  lemma {:induction false} CountSideBlank(n: nat, white: bool)
    ensures CountSide(Blank(n), white) == 0
  {
    if n > 0 {
      assert Blank(n)[..n - 1] == Blank(n - 1);
      CountSideBlank(n - 1, white);
    }
  }

  /** A full rank of eight pieces followed by '/' fills the row and moves to the next. */
  lemma PieceRank(st: State, p: string)
    requires |st.board| == 64 && st.row <= 7 && st.col == 0 && |p| == 8 && AllPieces(p)
    ensures Scan(st, p + "/") == State(st.board[..st.row * 8] + p + st.board[st.row * 8 + 8..], st.row + 1, 0)
  {
    ScanAppend(st, p, "/");
    PlacesRun(st, p);
    ScanCons(Scan(st, p), "/");
    StepSlash(Scan(st, p));
  }

  /** An empty rank written '8/' moves one row down and places nothing. */
  lemma EmptyRank(st: State, t: string)
    requires |st.board| == 64 && st.row <= 7 && st.col == 0
    ensures Scan(st, "8/" + t) == Scan(State(st.board, st.row + 1, 0), t)
  {
    var s1 := State(st.board, st.row, 8);
    assert Scan(st, "8/") == State(st.board, st.row + 1, 0) by {
      ScanCons(st, "8/");
      StepDigit(st, '8');
      ScanCons(s1, "/");
      StepSlash(s1);
    }
    ScanAppend(st, "8/", t);
  }

  lemma FourEmptyRanks(st: State, e: string)
    requires |st.board| == 64 && st.row <= 4 && st.col == 0 && e == "8/8/8/8/"
    ensures Scan(st, e) == State(st.board, st.row + 4, 0)
  {
    var b := st.board;
    assert e == "8/" + ("8/" + ("8/" + ("8/" + [])));
    EmptyRank(st, "8/" + ("8/" + ("8/" + [])));
    EmptyRank(State(b, st.row + 1, 0), "8/" + ("8/" + []));
    EmptyRank(State(b, st.row + 2, 0), "8/" + []);
    EmptyRank(State(b, st.row + 3, 0), []);
  }

  lemma ScanFiveParts(st: State, a: string, b: string, c: string, d: string, e: string)
    requires |st.board| == 64
    ensures Scan(st, a + b + c + d + e) == Scan(Scan(Scan(Scan(Scan(st, a), b), c), d), e)
  {
    ScanAppend(st, a + b + c + d, e);
    ScanAppend(st, a + b + c, d);
    ScanAppend(st, a + b, c);
    ScanAppend(st, a, b);
  }

  /** Eight piece letters: a rank with no empty square. */
  predicate FullRank(r: string)
  {
    |r| == 8 && AllPieces(r)
  }

  lemma FirstRank(r8: string)
    requires FullRank(r8)
    ensures Scan(Start, r8 + "/") == State(r8 + Blank(56), 1, 0)
  {
    PieceRank(Start, r8);
    assert Start.board[..0] + r8 + Start.board[8..] == r8 + Blank(56);
  }

  lemma SecondRank(r8: string, r7: string)
    requires FullRank(r8) && FullRank(r7)
    ensures Scan(State(r8 + Blank(56), 1, 0), r7 + "/") == State(r8 + r7 + Blank(48), 2, 0)
  {
    var b1 := r8 + Blank(56);
    PieceRank(State(b1, 1, 0), r7);
    assert b1[..8] == r8;
    assert b1[16..] == Blank(48);
  }

  lemma SeventhRank(r8: string, r7: string, r2: string)
    requires FullRank(r8) && FullRank(r7) && FullRank(r2)
    ensures Scan(State(r8 + r7 + Blank(48), 6, 0), r2 + "/") == State(r8 + r7 + Blank(32) + r2 + Blank(8), 7, 0)
  {
    var b2 := r8 + r7 + Blank(48);
    PieceRank(State(b2, 6, 0), r2);
    assert b2[..48] == r8 + r7 + Blank(32);
    assert b2[56..] == Blank(8);
  }

  lemma EighthRank(r8: string, r7: string, r2: string, r1: string)
    requires FullRank(r8) && FullRank(r7) && FullRank(r2) && FullRank(r1)
    ensures Scan(State(r8 + r7 + Blank(32) + r2 + Blank(8), 7, 0), r1).board == r8 + r7 + Blank(32) + r2 + r1
  {
    var b7 := r8 + r7 + Blank(32) + r2 + Blank(8);
    PlacesRun(State(b7, 7, 0), r1);
    assert b7[..56] == r8 + r7 + Blank(32) + r2;
    assert b7[64..] == [];
  }

  /** Two full ranks, four empty ranks and two full ranks are placed in order, the
      first rank of the text on slots 0-7. */
  lemma StartRanks(r8: string, r7: string, e: string, r2: string, r1: string)
    requires FullRank(r8) && FullRank(r7) && FullRank(r2) && FullRank(r1) && e == "8/8/8/8/"
    ensures Scan(Start, (r8 + "/") + (r7 + "/") + e + (r2 + "/") + r1).board == r8 + r7 + Blank(32) + r2 + r1
  {
    ScanFiveParts(Start, r8 + "/", r7 + "/", e, r2 + "/", r1);
    FirstRank(r8);
    SecondRank(r8, r7);
    FourEmptyRanks(State(r8 + r7 + Blank(48), 2, 0), e);
    SeventhRank(r8, r7, r2);
    EighthRank(r8, r7, r2, r1);
  }

  /** Sixteen black pieces, four empty ranks and sixteen white pieces. */
  lemma StartCounts(r8: string, r7: string, r2: string, r1: string)
    requires r8 == "rnbqkbnr" && r7 == "pppppppp" && r2 == "PPPPPPPP" && r1 == "RNBQKBNR"
    ensures var board := r8 + r7 + Blank(32) + r2 + r1;
            CountSide(board, true) == 16 && CountSide(board, false) == 16 && board[4] == 'k' && board[60] == 'K'
  {
    var board := r8 + r7 + Blank(32) + r2 + r1;
    assert board == (r8 + r7) + Blank(32) + (r2 + r1);
    forall w: bool ensures CountSide(board, w) == CountSide(r8 + r7, w) + CountSide(r2 + r1, w) {
      CountSideAppend((r8 + r7) + Blank(32), r2 + r1, w);
      CountSideAppend(r8 + r7, Blank(32), w);
      CountSideBlank(32, w);
    }
    CountSideUniform(r8 + r7, false);
    CountSideUniform(r2 + r1, true);
  }

  // The start-position lemmas take each rank as a parameter equal to its text: that
  // keeps the verifier from evaluating the whole literal at once, which is costly.

  /** The standard start position, rnbqkbnr/pppppppp/8/8/8/8/PPPPPPPP/RNBQKBNR w KQkq - 0 1,
      parses to black's pieces on slots 0-15 and white's on slots 48-63; the fields after
      the placement are ignored. The ranks are parameters equal to their text, so that the
      proof goes rank by rank. */
  lemma StartPosition(r8: string, r7: string, e: string, r2: string, r1: string, rest: string)
    requires r8 == "rnbqkbnr" && r7 == "pppppppp" && e == "8/8/8/8/"
    requires r2 == "PPPPPPPP" && r1 == "RNBQKBNR" && rest == "w KQkq - 0 1"
    ensures Parse(r8 + "/" + r7 + "/" + e + r2 + "/" + r1 + " " + rest) == r8 + r7 + Blank(32) + r2 + r1
    ensures var board := Parse(r8 + "/" + r7 + "/" + e + r2 + "/" + r1 + " " + rest);
            CountSide(board, true) == 16 && CountSide(board, false) == 16 && board[4] == 'k' && board[60] == 'K'
  {
    StartText(r8, r7, e, r2, r1, rest);
    StartLetters(r8, r7, r2, r1);
    StartRanks(r8, r7, e, r2, r1);
    StartCounts(r8, r7, r2, r1);
  }

  /** The placement field of the start position is the text before the first space. */
  lemma StartText(r8: string, r7: string, e: string, r2: string, r1: string, rest: string)
    requires r8 == "rnbqkbnr" && r7 == "pppppppp" && e == "8/8/8/8/"
    requires r2 == "PPPPPPPP" && r1 == "RNBQKBNR" && rest == "w KQkq - 0 1"
    ensures Parse(r8 + "/" + r7 + "/" + e + r2 + "/" + r1 + " " + rest)
         == Scan(Start, (r8 + "/") + (r7 + "/") + e + (r2 + "/") + r1).board
  {
    var placement := (r8 + "/") + (r7 + "/") + e + (r2 + "/") + r1;
    assert Space !in r8 && Space !in r7 && Space !in e && Space !in r2 && Space !in r1;
    assert Space !in placement;
    FirstFieldUpToSpace(placement, rest);
    Regroup(r8, r7, e, r2, r1, rest);
  }

  /** The start position's text regrouped as placement, space, remaining fields. */
  lemma Regroup(r8: string, r7: string, e: string, r2: string, r1: string, rest: string)
    ensures r8 + "/" + r7 + "/" + e + r2 + "/" + r1 + " " + rest
         == ((r8 + "/") + (r7 + "/") + e + (r2 + "/") + r1) + [Space] + rest
  {
  }

  /** The four occupied ranks of the start position hold eight piece letters each. */
  lemma StartLetters(r8: string, r7: string, r2: string, r1: string)
    requires r8 == "rnbqkbnr" && r7 == "pppppppp" && r2 == "PPPPPPPP" && r1 == "RNBQKBNR"
    ensures FullRank(r8) && FullRank(r7) && FullRank(r2) && FullRank(r1)
  {
    AllPiecesIff(r8);
    AllPiecesIff(r7);
    AllPiecesIff(r2);
    AllPiecesIff(r1);
  }

  // A character arriving while the row is overfull only ends the row: "8K" places
  // nothing, while "8/K" puts the king on the 7th rank. The dropped character does not
  // truncate the rest of the text: in "8KQ" the queen lands on slot 8. A noise letter
  // such as the 'w' of "8wK" is enough to absorb the overflow, although the same letter
  // read inside a row ("7wK") changes nothing.

  lemma OverflowDropsPiece() ensures Parse("8K") == EmptyBoard()
  {
    var full := State(EmptyBoard(), 0, 8);
    FirstFieldUpToSpace("8K", []);
    ScanCons(Start, "8K");
    StepDigit(Start, '8');
    ScanCons(full, "K");
    StepOverflow(full, 'K');
  }

  lemma SeparatorAfterFullRank() ensures Parse("8/K") == EmptyBoard()[8 := 'K']
  {
    var full, next := State(EmptyBoard(), 0, 8), State(EmptyBoard(), 1, 0);
    FirstFieldUpToSpace("8/K", []);
    ScanCons(Start, "8/K");
    StepDigit(Start, '8');
    ScanCons(full, "/K");
    StepSlash(full);
    ScanCons(next, "K");
    StepPiece(next, 'K');
  }

  lemma OverflowDropsOnlyOne() ensures Parse("8KQ") == EmptyBoard()[8 := 'Q']
  {
    var full, next := State(EmptyBoard(), 0, 8), State(EmptyBoard(), 1, 0);
    FirstFieldUpToSpace("8KQ", []);
    ScanCons(Start, "8KQ");
    StepDigit(Start, '8');
    ScanCons(full, "KQ");
    StepOverflow(full, 'K');
    ScanCons(next, "Q");
    StepPiece(next, 'Q');
  }

  lemma NoiseAbsorbsOverflow() ensures Parse("8wK") == EmptyBoard()[8 := 'K']
  {
    var full, next := State(EmptyBoard(), 0, 8), State(EmptyBoard(), 1, 0);
    FirstFieldUpToSpace("8wK", []);
    ScanCons(Start, "8wK");
    StepDigit(Start, '8');
    ScanCons(full, "wK");
    StepOverflow(full, 'w');
    ScanCons(next, "K");
    StepPiece(next, 'K');
  }

  lemma NoiseInsideRank() ensures Parse("7wK") == EmptyBoard()[7 := 'K']
  {
    var seven := State(EmptyBoard(), 0, 7);
    FirstFieldUpToSpace("7wK", []);
    ScanCons(Start, "7wK");
    StepDigit(Start, '7');
    ScanCons(seven, "wK");
    StepNoise(seven, 'w');
    ScanCons(seven, "K");
    StepPiece(seven, 'K');
  }

  // "44" fills a rank exactly like "8"; "45" overflows it by one column, to the same
  // effect. The digits '0' and '9' are not skips: they are ignored.

  lemma SplitSkip() ensures Parse("44/K") == Parse("8/K")
  {
    var four, full := State(EmptyBoard(), 0, 4), State(EmptyBoard(), 0, 8);
    FirstFieldUpToSpace("44/K", []);
    ScanCons(Start, "44/K");
    StepDigit(Start, '4');
    ScanCons(four, "4/K");
    StepDigit(four, '4');
    FirstFieldUpToSpace("8/K", []);
    ScanCons(Start, "8/K");
    StepDigit(Start, '8');
  }

  lemma OverlongSkip() ensures Parse("45K") == EmptyBoard()
  {
    var four, over := State(EmptyBoard(), 0, 4), State(EmptyBoard(), 0, 9);
    FirstFieldUpToSpace("45K", []);
    ScanCons(Start, "45K");
    StepDigit(Start, '4');
    ScanCons(four, "5K");
    StepDigit(four, '5');
    ScanCons(over, "K");
    StepOverflow(over, 'K');
  }

  lemma NineIgnored() ensures Parse("9K") == EmptyBoard()[0 := 'K']
  {
    FirstFieldUpToSpace("9K", []);
    ScanCons(Start, "9K");
    StepNoise(Start, '9');
    ScanCons(Start, "K");
    StepPiece(Start, 'K');
  }

  lemma ZeroIgnored() ensures Parse("0K") == EmptyBoard()[0 := 'K']
  {
    FirstFieldUpToSpace("0K", []);
    ScanCons(Start, "0K");
    StepNoise(Start, '0');
    ScanCons(Start, "K");
    StepPiece(Start, 'K');
  }

  /** Eight empty ranks close the board: nothing written after them is placed. */
  lemma NinthRankIgnored(e: string, t: string)
    requires e == "8/8/8/8/"
    ensures Parse(e + e + t) == EmptyBoard()
  {
    assert Space !in e + e;
    FirstFieldPrefix(e + e, t);
    FourEmptyRanks(Start, e);
    FourEmptyRanks(State(EmptyBoard(), 4, 0), e);
    ScanAppend(Start, e, e);
    StopsAfterEighthRank(Start, e + e, FirstField(t));
  }
}
