/** The colour conversion of index.php (hex_rgb): a CSS-style hex colour such as "#aabbcc"
    or its short form "#abc" to its red, green and blue components. */
module Color {

  /** The colours of the board's squares. */
  const DarkSquare: string := "#b5876b"
  const LiteSquare: string := "#f0dec7"

  predicate IsHex(c: char)
  {
    '0' <= c <= '9' || 'a' <= c <= 'f' || 'A' <= c <= 'F'
  }

  /** The value of one hex digit, in either case. */
  function HexValue(c: char): (v: nat)
    requires IsHex(c)
    ensures v < 16
  {
    if '0' <= c <= '9' then (c as int) - ('0' as int)
    else if 'a' <= c <= 'f' then (c as int) - ('a' as int) + 10
    else (c as int) - ('A' as int) + 10
  }

  function Pow16(k: nat): (p: nat)
    ensures p >= 1
  {
    if k == 0 then 1 else 16 * Pow16(k - 1)
  }

  /** PHP's hexdec: the hex digits of the text read as one number, every other
      character skipped. A text of k characters gives less than 16^k. */
  function HexDec(s: string): (n: nat)
    ensures n < Pow16(|s|)
    decreases |s|
  {
    if s == [] then 0
    else
      var init, last := s[..|s| - 1], s[|s| - 1];
      if IsHex(last) then
        var m := HexDec(init);
        assert m * 16 <= (Pow16(|init|) - 1) * 16;
        m * 16 + HexValue(last)
      else HexDec(init)
  }

  /** `ltrim(s, '#')`: every leading '#' removed. */
  function TrimHashes(s: string): (r: string)
    ensures |r| <= |s|
    decreases |s|
  {
    if s != [] && s[0] == '#' then TrimHashes(s[1..]) else s
  }

  /** What ltrim removes is exactly the leading run of '#': the result is a suffix of
      the text that does not start with '#', and everything before it is '#'. */
  lemma {:induction false} TrimHashesSpec(s: string)
    ensures TrimHashes(s) == s[|s| - |TrimHashes(s)|..]
    ensures TrimHashes(s) == [] || TrimHashes(s)[0] != '#'
    ensures forall i :: 0 <= i < |s| - |TrimHashes(s)| ==> s[i] == '#'
    decreases |s|
  {
    if s != [] && s[0] == '#' {
      TrimHashesSpec(s[1..]);
    }
  }

  function Flatten(cs: seq<string>): string
  {
    if cs == [] then [] else cs[0] + Flatten(cs[1..])
  }

  /** `str_split(s, n)`: consecutive pieces of n characters, the last one possibly
      shorter; the empty text gives no pieces. */
  function Chunks(s: string, n: nat): (r: seq<string>)
    requires n >= 1
    ensures forall i :: 0 <= i < |r| ==> 1 <= |r[i]| <= n
    ensures forall i :: 0 <= i < |r| - 1 ==> |r[i]| == n
    decreases |s|
  {
    if s == [] then []
    else if |s| <= n then [s]
    else [s[..n]] + Chunks(s[n..], n)
  }

  /** The pieces put together again give the text. */
  lemma {:induction false} ChunksFlatten(s: string, n: nat)
    requires n >= 1
    ensures Flatten(Chunks(s, n)) == s
    decreases |s|
  {
    if s != [] && |s| > n {
      var rest := Chunks(s[n..], n);
      ChunksFlatten(s[n..], n);
      assert ([s[..n]] + rest)[1..] == rest;
      assert s == s[..n] + s[n..];
    } else if s != [] {
      assert Flatten([s]) == s + Flatten([]);
    }
  }

  /** `str_pad(c, 2, c)`: a one-character piece is doubled, a longer one kept. */
  function Pad(c: string): (r: string)
    ensures c <= r
    ensures 1 <= |c| <= 2 ==> |r| == 2
  {
    if |c| >= 2 then c else c + c
  }

  /** The piece length hex_rgb cuts with: two for texts longer than four characters
      (the '#' included), one otherwise. */
  function PieceLength(clr: string): (n: nat)
    ensures 1 <= n <= 2
  {
    if |clr| > 4 then 2 else 1
  }

  /** One or two characters, padded and read as hex, per piece. */
  function Bytes(pieces: seq<string>): (rgb: seq<nat>)
    requires forall i :: 0 <= i < |pieces| ==> 1 <= |pieces[i]| <= 2
    ensures |rgb| == |pieces|
    ensures forall i :: 0 <= i < |rgb| ==> rgb[i] == HexDec(Pad(pieces[i])) && rgb[i] <= 255
  {
    PaddedBytes(pieces);
    seq(|pieces|, i requires 0 <= i < |pieces| => HexDec(Pad(pieces[i])))
  }

  /** A piece of one or two characters, padded, reads as a byte. */
  lemma PaddedBytes(pieces: seq<string>)
    requires forall i :: 0 <= i < |pieces| ==> 1 <= |pieces[i]| <= 2
    ensures forall i :: 0 <= i < |pieces| ==> HexDec(Pad(pieces[i])) <= 255
  {
    assert Pow16(2) == 256;
    forall i | 0 <= i < |pieces| ensures HexDec(Pad(pieces[i])) <= 255 {
      assert |Pad(pieces[i])| == 2;
    }
  }

  /** hex_rgb: the '#' prefix trimmed, the rest cut into pieces of PieceLength(clr)
      characters, and each piece padded to two characters and read as hex. */
  function HexRgb(clr: string): (rgb: seq<nat>)
    ensures forall i :: 0 <= i < |rgb| ==> rgb[i] <= 255
  {
    Bytes(Chunks(TrimHashes(clr), PieceLength(clr)))
  }

  // ---------------------------------------------------------------------------
  // Properties of the conversion

  /** hex_rgb converts the pieces of the trimmed text. */
  lemma Components(clr: string)
    ensures HexRgb(clr) == Bytes(Chunks(TrimHashes(clr), PieceLength(clr)))
  {
  }

  /** Three pieces give three components. */
  lemma BytesOfThree(p: string, q: string, r: string)
    requires 1 <= |p| <= 2 && 1 <= |q| <= 2 && 1 <= |r| <= 2
    ensures Bytes([p, q, r]) == [HexDec(Pad(p)), HexDec(Pad(q)), HexDec(Pad(r))]
  {
  }

  /** One leading '#' is trimmed from text that does not go on with another. */
  lemma TrimOne(s: string)
    requires s == [] || s[0] != '#'
    ensures TrimHashes("#" + s) == s
  {
    assert ("#" + s)[1..] == s;
  }

  /** Two hex digits read as one byte, high digit first. */
  lemma HexPair(a: char, b: char)
    requires IsHex(a) && IsHex(b)
    ensures HexDec([a, b]) == 16 * HexValue(a) + HexValue(b)
  {
    assert [a, b][..1] == [a];
    assert [a][..0] == [];
  }

  /** Six characters cut into three pairs. */
  lemma PairsOfSix(s: string)
    requires |s| == 6
    ensures Chunks(s, 2) == [s[..2], s[2..4], s[4..]]
  {
    var t := s[2..];
    assert t[..2] == s[2..4] && t[2..] == s[4..];
    assert Chunks(s[4..], 2) == [s[4..]];
    assert Chunks(t, 2) == [s[2..4], s[4..]];
  }

  /** The six-digit form gives one component per pair of digits. */
  lemma LongForm(s: string)
    requires |s| == 6 && s[0] != '#'
    ensures HexRgb("#" + s) == [HexDec(s[..2]), HexDec(s[2..4]), HexDec(s[4..])]
  {
    TrimOne(s);
    PairsOfSix(s);
    assert PieceLength("#" + s) == 2;
    Components("#" + s);
    BytesOfThree(s[..2], s[2..4], s[4..]);
  }

  /** Three characters cut into single characters. */
  lemma SinglesOfThree(s: string)
    requires |s| == 3
    ensures Chunks(s, 1) == [[s[0]], [s[1]], [s[2]]]
  {
    var t := s[1..];
    assert s[..1] == [s[0]] && t[..1] == [s[1]] && t[1..] == [s[2]];
    assert Chunks(t[1..], 1) == [[s[2]]];
    assert Chunks(t, 1) == [[s[1]], [s[2]]];
  }

  /** The three-digit short form doubles each digit. */
  lemma ShortForm(s: string)
    requires |s| == 3 && s[0] != '#'
    ensures HexRgb("#" + s) == [HexDec([s[0], s[0]]), HexDec([s[1], s[1]]), HexDec([s[2], s[2]])]
  {
    TrimOne(s);
    SinglesOfThree(s);
    assert PieceLength("#" + s) == 1;
    Components("#" + s);
    BytesOfThree([s[0]], [s[1]], [s[2]]);
    assert Pad([s[0]]) == [s[0], s[0]] && Pad([s[1]]) == [s[1], s[1]] && Pad([s[2]]) == [s[2], s[2]];
  }

  /** "#rgb" with hex digits r, g, b is [17 r, 17 g, 17 b]. */
  lemma ShortFormDigits(s: string)
    requires |s| == 3 && IsHex(s[0]) && IsHex(s[1]) && IsHex(s[2])
    ensures HexRgb("#" + s) == [17 * HexValue(s[0]), 17 * HexValue(s[1]), 17 * HexValue(s[2])]
  {
    ShortForm(s);
    HexPair(s[0], s[0]);
    HexPair(s[1], s[1]);
    HexPair(s[2], s[2]);
  }

  /** "#rrggbb" with hex digits is one byte per pair. */
  lemma LongFormDigits(s: string)
    requires |s| == 6 && forall i :: 0 <= i < 6 ==> IsHex(s[i])
    ensures HexRgb("#" + s) ==
            [16 * HexValue(s[0]) + HexValue(s[1]), 16 * HexValue(s[2]) + HexValue(s[3]),
             16 * HexValue(s[4]) + HexValue(s[5])]
  {
    LongForm(s);
    assert s[..2] == [s[0], s[1]] && s[2..4] == [s[2], s[3]] && s[4..] == [s[4], s[5]];
    HexPair(s[0], s[1]);
    HexPair(s[2], s[3]);
    HexPair(s[4], s[5]);
  }

  /** So "#abc" and "#aabbcc" name the same colour: each short-form character is read
      doubled. */
  lemma ShortFormDoubles(s: string)
    requires |s| == 3 && s[0] != '#'
    ensures HexRgb("#" + s) == HexRgb("#" + [s[0], s[0], s[1], s[1], s[2], s[2]])
  {
    var t := [s[0], s[0], s[1], s[1], s[2], s[2]];
    ShortForm(s);
    LongForm(t);
    assert t[..2] == [s[0], s[0]] && t[2..4] == [s[1], s[1]] && t[4..] == [s[2], s[2]];
  }

  // The colour lemmas take the colour as a parameter equal to the constant: that keeps
  // the verifier from evaluating HexRgb on the literal text, which is costly.

  /** The dark square colour is "#" and six digits. */
  lemma DarkDigits(clr: string)
    requires clr == DarkSquare
    ensures clr == "#" + clr[1..] && clr[1..] == ['b', '5', '8', '7', '6', 'b']
  {
  }

  /** The colour of the dark squares. */
  lemma DarkSquareColour(clr: string)
    requires clr == DarkSquare
    ensures HexRgb(clr) == [181, 135, 107]
  {
    DarkDigits(clr);
    LongFormDigits(clr[1..]);
  }

  /** The light square colour is "#" and six digits. */
  lemma LiteDigits(clr: string)
    requires clr == LiteSquare
    ensures clr == "#" + clr[1..] && clr[1..] == ['f', '0', 'd', 'e', 'c', '7']
  {
  }

  /** The colour of the light squares. */
  lemma LiteSquareColour(clr: string)
    requires clr == LiteSquare
    ensures HexRgb(clr) == [240, 222, 199]
  {
    LiteDigits(clr);
    LongFormDigits(clr[1..]);
  }

  /** The short form example of the function's own documentation. */
  lemma ShortFormExample(clr: string)
    requires clr == "#abc"
    ensures HexRgb(clr) == [170, 187, 204]
    ensures HexRgb(clr) == HexRgb(['#', 'a', 'a', 'b', 'b', 'c', 'c'])
  {
    var s := clr[1..];
    assert clr == "#" + s && s == ['a', 'b', 'c'];
    ShortFormDigits(s);
    ShortFormDoubles(s);
    assert [s[0], s[0], s[1], s[1], s[2], s[2]] == ['a', 'a', 'b', 'b', 'c', 'c'];
  }

  /** The digit for a value below 16, lower case. */
  function HexChar(d: nat): (c: char)
    requires d < 16
    ensures IsHex(c) && HexValue(c) == d
  {
    if d < 10 then ('0' as int + d) as char else ('a' as int + d - 10) as char
  }

  /** A byte as two hex digits. */
  function ByteHex(n: nat): (s: string)
    requires n < 256
    ensures |s| == 2 && IsHex(s[0]) && IsHex(s[1])
  {
    [HexChar(n / 16), HexChar(n % 16)]
  }

  /** The two digits of a byte read back as the byte. */
  lemma ByteHexRoundTrip(n: nat)
    requires n < 256
    ensures HexDec(ByteHex(n)) == n
  {
    var x := ByteHex(n);
    assert x == [x[0], x[1]];
    HexPair(x[0], x[1]);
  }

  /** Writing a colour as "#rrggbb" and converting it back gives the components again. */
  lemma RoundTrip(r: nat, g: nat, b: nat)
    requires r < 256 && g < 256 && b < 256
    ensures HexRgb("#" + ByteHex(r) + ByteHex(g) + ByteHex(b)) == [r, g, b]
  {
    var x, y, z := ByteHex(r), ByteHex(g), ByteHex(b);
    var s := x + y + z;
    assert "#" + x + y + z == "#" + s;
    assert s[..2] == x && s[2..4] == y && s[4..] == z;
    LongForm(s);
    ByteHexRoundTrip(r);
    ByteHexRoundTrip(g);
    ByteHexRoundTrip(b);
  }
}
