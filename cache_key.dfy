/** The cache file name of a request (request_to_file_name in index.php): the request
    fields joined with '_', every character outside [kqrnbpKQRNBP_0-9-] removed, hashed
    with md5 and given the ".png" extension. The hash is a parameter: its body is not
    part of this model. */
module CacheKey {
  import Fen

  /** The characters the key keeps: piece letters, '_', the digits 0-9 and '-'. */
  predicate IsKept(c: char)
  {
    Fen.IsPiece(c) || c == '_' || '0' <= c <= '9' || c == '-'
  }

  /** `join('_', [$fen, $size, $reversed])`, with size and reversed already as text. */
  function Join(fen: string, size: string, reversed: string): string
  {
    fen + "_" + size + "_" + reversed
  }

  /** `preg_replace("/[^kqrnbpKQRNBP_0-9\-]+/", "", s)`: drop every character not kept. */
  function Strip(s: string): (r: string)
    ensures |r| <= |s|
    decreases |s|
  {
    if s == [] then [] else (if IsKept(s[0]) then [s[0]] else []) + Strip(s[1..])
  }

  /** The string that is hashed, exactly as index.php builds it: the placement-only value
      computed on line 61 is discarded, so the whole FEN record is joined. */
  function HashInput(fen: string, size: string, reversed: string): string
  {
    Strip(Join(fen, size, reversed))
  }

  /** request_to_file_name: md5 of the hash input, with the ".png" extension. */
  function FileName(md5: string -> string, fen: string, size: string, reversed: string): (name: string)
    ensures |name| >= 4 && name[|name| - 4..] == ".png"
  {
    md5(HashInput(fen, size, reversed)) + ".png"
  }

  // ---------------------------------------------------------------------------
  // Properties of the filter

  /** Only kept characters come out of the filter. */
  lemma {:induction false} StripKept(s: string)
    ensures forall i :: 0 <= i < |Strip(s)| ==> IsKept(Strip(s)[i])
    decreases |s|
  {
    if s != [] {
      StripKept(s[1..]);
      var head := if IsKept(s[0]) then [s[0]] else [];
      assert Strip(s) == head + Strip(s[1..]);
    }
  }

  /** Stripping leaves a string unchanged exactly when every character is kept. */
  lemma {:induction false} StripIdentity(s: string)
    ensures Strip(s) == s <==> forall i :: 0 <= i < |s| ==> IsKept(s[i])
    decreases |s|
  {
    if s != [] {
      StripIdentity(s[1..]);
      if !IsKept(s[0]) {
        assert |Strip(s)| <= |s[1..]| < |s|;
      } else if Strip(s) == s {
        assert Strip(s[1..]) == s[1..];
      }
    }
  }

  /** Filtering is idempotent. */
  lemma StripIdempotent(s: string)
    ensures Strip(Strip(s)) == Strip(s)
  {
    StripKept(s);
    StripIdentity(Strip(s));
  }

  /** The filter works character by character, so it distributes over concatenation. */
  lemma {:induction false} StripAppend(a: string, b: string)
    ensures Strip(a + b) == Strip(a) + Strip(b)
    decreases |a|
  {
    if a == [] {
      assert a + b == b;
    } else {
      var head := if IsKept(a[0]) then [a[0]] else [];
      assert Strip(a) == head + Strip(a[1..]);
      assert (a + b)[0] == a[0] && (a + b)[1..] == a[1..] + b;
      assert Strip(a + b) == head + Strip(a[1..] + b);
      StripAppend(a[1..], b);
      Associative(head, Strip(a[1..]), Strip(b));
    }
  }

  /** Concatenation regroups; a separate lemma so that StripAppend's proof stays small. */
  lemma Associative(x: string, y: string, z: string)
    ensures x + (y + z) == (x + y) + z
  {
  }

  /** A character survives the filter exactly when it occurs and is kept. */
  lemma {:induction false} StripMembers(s: string, c: char)
    ensures c in Strip(s) <==> c in s && IsKept(c)
    decreases |s|
  {
    if s != [] {
      StripMembers(s[1..], c);
      assert s == [s[0]] + s[1..];
    }
  }

  /** The hash input of a request is the filtered FEN followed by the filtered size and
      reversed flag, each introduced by '_'. */
  lemma HashInputParts(fen: string, size: string, reversed: string)
    ensures HashInput(fen, size, reversed) == Strip(fen) + "_" + Strip(size) + "_" + Strip(reversed)
  {
    var u := "_";
    assert Strip(u) == u;
    StripAppend(fen + u + size + u, reversed);
    StripAppend(fen + u + size, u);
    StripAppend(fen + u, size);
    StripAppend(fen, u);
  }

  /** Two requests whose FENs filter to the same text share a cache file, whatever the
      hash is. */
  lemma SameFilteredSameName(md5: string -> string, fen1: string, fen2: string, size: string, reversed: string)
    requires Strip(fen1) == Strip(fen2)
    ensures FileName(md5, fen1, size, reversed) == FileName(md5, fen2, size, reversed)
  {
    HashInputParts(fen1, size, reversed);
    HashInputParts(fen2, size, reversed);
  }

  /** Text made of decimal digits only, as PHP writes an integer or a boolean. */
  predicate IsDecimal(s: string)
  {
    forall i :: 0 <= i < |s| ==> '0' <= s[i] <= '9'
  }

  /** Decimal text passes the filter unchanged. */
  lemma DecimalKept(s: string)
    requires IsDecimal(s)
    ensures Strip(s) == s
  {
    StripIdentity(s);
  }

  /** In p + x + "_" + y, when x has no '_', the first '_' from position |p| on stands
      right after x. */
  lemma FirstUnderscore(p: string, x: string, y: string)
    requires '_' !in x
    ensures forall k :: |p| <= k <= |p| + |x| ==> ((p + x + "_" + y)[k] == '_' <==> k == |p| + |x|)
  {
    forall k | |p| <= k < |p| + |x| ensures (p + x + "_" + y)[k] == x[k - |p|] {
    }
  }

  /** So p + x + "_" + y can be split back into x and y. */
  lemma SplitAtUnderscore(p: string, x1: string, y1: string, x2: string, y2: string)
    requires '_' !in x1 && '_' !in x2
    requires p + x1 + "_" + y1 == p + x2 + "_" + y2
    ensures x1 == x2 && y1 == y2
  {
    var s := p + x1 + "_" + y1;
    FirstUnderscore(p, x1, y1);
    FirstUnderscore(p, x2, y2);
    assert s[|p| + |x1|] == '_' && s[|p| + |x2|] == '_';
    assert |x1| == |x2|;
    assert x1 == s[|p|..|p| + |x1|] == x2;
    assert y1 == s[|p| + |x1| + 1..] == y2;
  }

  /** For a fixed FEN, requests that differ in size or orientation never share a hash
      input: the filtered FEN is a common prefix and the two decimal fields are told
      apart by the '_' between them. */
  lemma SizeAndOrientationSeparate(fen: string, size1: string, rev1: string, size2: string, rev2: string)
    requires IsDecimal(size1) && IsDecimal(rev1) && IsDecimal(size2) && IsDecimal(rev2)
    requires HashInput(fen, size1, rev1) == HashInput(fen, size2, rev2)
    ensures size1 == size2 && rev1 == rev2
  {
    HashInputParts(fen, size1, rev1);
    HashInputParts(fen, size2, rev2);
    DecimalKept(size1);
    DecimalKept(size2);
    DecimalKept(rev1);
    DecimalKept(rev2);
    assert '_' !in size1 && '_' !in size2;
    SplitAtUnderscore(Strip(fen) + "_", size1, rev1, size2, rev2);
  }

  // ---------------------------------------------------------------------------
  // The placement-only key that line 61 computes and then discards

  /** Two requests whose FENs both consist of piece letters, digits and '/' but parse to
      different boards share a hash input, hence a cache file: the filter drops '/'. */
  lemma AsWrittenCollision(size: string, reversed: string)
    ensures HashInput("8/K", size, reversed) == HashInput("8K", size, reversed)
    ensures Fen.Parse("8/K") != Fen.Parse("8K")
  {
    HashInputParts("8/K", size, reversed);
    HashInputParts("8K", size, reversed);
    assert Strip("8/K") == "8K" == Strip("8K") by {
      assert "8/K"[1..] == "/K" && "/K"[1..] == "K" && "8K"[1..] == "K" && "K"[1..] == [];
    }
    // "8K": the '8' fills the 8th rank and the 'K' falls off its end.
    var full := Fen.State(Fen.EmptyBoard(), 0, 8);
    assert Fen.Parse("8K") == Fen.EmptyBoard() by {
      Fen.FirstFieldUpToSpace("8K", []);
      Fen.ScanCons(Fen.Start, "8K");
      Fen.StepDigit(Fen.Start, '8');
      Fen.ScanCons(full, "K");
      Fen.StepOverflow(full, 'K');
    }
    // "8/K": the '/' moves on to the 7th rank, where the 'K' is placed on slot 8.
    var next := Fen.State(Fen.EmptyBoard(), 1, 0);
    assert Fen.Parse("8/K") == Fen.EmptyBoard()[8 := 'K'] by {
      Fen.FirstFieldUpToSpace("8/K", []);
      Fen.ScanCons(Fen.Start, "8/K");
      Fen.StepDigit(Fen.Start, '8');
      Fen.ScanCons(full, "/K");
      Fen.StepSlash(full);
      Fen.ScanCons(next, "K");
      Fen.StepPiece(next, 'K');
    }
    assert Fen.Parse("8/K")[8] != Fen.Parse("8K")[8];
  }

  /** As written the move counters reach the key, so one position under two clocks is
      rendered and cached twice. */
  lemma AsWrittenUsesCounters(a: string, size: string, reversed: string)
    ensures HashInput(a + " 0 1", size, reversed) != HashInput(a + " 5 1", size, reversed)
  {
    StripAppend(a, " 0 1");
    StripAppend(a, " 5 1");
    assert Strip(" 0 1") == "01" && Strip(" 5 1") == "51";
    HashInputParts(a + " 0 1", size, reversed);
    HashInputParts(a + " 5 1", size, reversed);
    var k := |Strip(a)|;
    assert HashInput(a + " 0 1", size, reversed)[k] == '0';
    assert HashInput(a + " 5 1", size, reversed)[k] == '5';
  }

  /** `str_replace('/', '-', s)`. */
  function Slashes(s: string): (r: string)
    ensures |r| == |s|
    ensures forall i :: 0 <= i < |s| ==> r[i] == (if s[i] == '/' then '-' else s[i])
    ensures '/' !in r
    ensures '/' !in s ==> r == s
  {
    seq(|s|, i requires 0 <= i < |s| => if s[i] == '/' then '-' else s[i])
  }

  /** The hash input the comment on line 60 describes: only the placement field, with
      its slashes turned into '-'. */
  function IntendedHashInput(fen: string, size: string, reversed: string): string
  {
    HashInput(Slashes(Fen.FirstField(fen)), size, reversed)
  }

  /** The file name built from the intended hash input. */
  function IntendedFileName(md5: string -> string, fen: string, size: string, reversed: string): (name: string)
    ensures |name| >= 4 && name[|name| - 4..] == ".png"
  {
    md5(IntendedHashInput(fen, size, reversed)) + ".png"
  }

  /** With the intended key, side to move, castling rights and counters do not matter. */
  lemma IntendedIgnoresCounters(md5: string -> string, a: string, b: string, size: string, reversed: string)
    requires Fen.Space !in a
    ensures IntendedFileName(md5, a + [Fen.Space] + b, size, reversed) == IntendedFileName(md5, a, size, reversed)
  {
    Fen.FirstFieldUpToSpace(a, b);
  }

  /** Text made of piece letters, the digits 1-8 and '/': every placement field a
      well-formed FEN has. */
  predicate IsPlacementText(s: string)
  {
    forall i :: 0 <= i < |s| ==> Fen.IsPiece(s[i]) || Fen.IsDigit(s[i]) || s[i] == '/'
  }

  /** Replacing slashes loses nothing on text that has no '-' of its own. */
  lemma SlashesInjective(s1: string, s2: string)
    requires '-' !in s1 && '-' !in s2
    requires Slashes(s1) == Slashes(s2)
    ensures s1 == s2
  {
    forall i | 0 <= i < |s1| ensures s1[i] == s2[i] {
      assert s1[i] in s1 && s2[i] in s2;
    }
  }

  /** Placement text with '-' for '/' passes the filter unchanged and holds no '_'. */
  lemma SlashesKept(p: string)
    requires IsPlacementText(p)
    ensures Strip(Slashes(p)) == Slashes(p)
    ensures '_' !in Slashes(p) && '-' !in p
  {
    var q := Slashes(p);
    forall i | 0 <= i < |q| ensures IsKept(q[i]) && q[i] != '_' {
      assert Fen.IsPiece(p[i]) || Fen.IsDigit(p[i]) || p[i] == '/';
    }
    StripIdentity(q);
  }

  /** The intended hash input of placement text is the text with '-' for '/', the size
      and the flag, joined by '_'. */
  lemma IntendedParts(p: string, size: string, reversed: string)
    requires IsPlacementText(p) && IsDecimal(size) && IsDecimal(reversed)
    ensures IntendedHashInput(p, size, reversed) == Slashes(p) + "_" + size + "_" + reversed
    ensures '_' !in Slashes(p) && '-' !in p
  {
    assert forall i :: 0 <= i < |p| ==> p[i] != Fen.Space;
    Fen.FirstFieldUpToSpace(p, []);
    SlashesKept(p);
    DecimalKept(size);
    DecimalKept(reversed);
    HashInputParts(Slashes(p), size, reversed);
  }

  /** Three '_'-joined fields whose first two hold no '_' can be read back. */
  lemma SplitFields(x1: string, s1: string, r1: string, x2: string, s2: string, r2: string)
    requires '_' !in x1 && '_' !in x2 && '_' !in s1 && '_' !in s2
    requires x1 + "_" + s1 + "_" + r1 == x2 + "_" + s2 + "_" + r2
    ensures x1 == x2 && s1 == s2 && r1 == r2
  {
    var t1, t2 := s1 + "_" + r1, s2 + "_" + r2;
    assert x1 + "_" + s1 + "_" + r1 == [] + x1 + "_" + t1;
    assert x2 + "_" + s2 + "_" + r2 == [] + x2 + "_" + t2;
    SplitAtUnderscore([], x1, t1, x2, t2);
    SplitAtUnderscore(x1 + "_", s1, r1, s2, r2);
  }

  /** With the intended key, requests with different well-formed placement fields, sizes
      or orientations never share a hash input. */
  lemma IntendedSeparatesPlacements(p1: string, size1: string, rev1: string,
                                    p2: string, size2: string, rev2: string)
    requires IsPlacementText(p1) && IsPlacementText(p2)
    requires IsDecimal(size1) && IsDecimal(rev1) && IsDecimal(size2) && IsDecimal(rev2)
    requires IntendedHashInput(p1, size1, rev1) == IntendedHashInput(p2, size2, rev2)
    ensures p1 == p2 && size1 == size2 && rev1 == rev2
  {
    IntendedParts(p1, size1, rev1);
    IntendedParts(p2, size2, rev2);
    assert '_' !in size1 && '_' !in size2;
    SplitFields(Slashes(p1), size1, rev1, Slashes(p2), size2, rev2);
    SlashesInjective(p1, p2);
  }
}
