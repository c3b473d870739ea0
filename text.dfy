/** String operations of JavaScript that the core relies on, over `seq<char>`:
    `includes`, a global `replace` with a literal pattern, and `trim`. */
module Text {

  /** `pat` occurs at the start of `s`. */
  predicate IsPrefix(pat: string, s: string) {
    |pat| <= |s| && s[..|pat|] == pat
  }

  /** JavaScript's `s.includes(pat)`. */
  function Contains(s: string, pat: string): (r: bool)
    ensures r ==> |pat| <= |s|
    ensures IsPrefix(pat, s) ==> r
    ensures |pat| == |s| ==> (r <==> s == pat)
    decreases |s|
  {
    IsPrefix(pat, s) || (|s| > 0 && Contains(s[1..], pat))
  }

  /** `pat` occurs in `s` starting at index `i`. */
  predicate OccursAt(s: string, pat: string, i: int) {
    0 <= i <= |s| - |pat| && s[i..i + |pat|] == pat
  }

  /** `Contains` agrees with the positional definition of a substring. */
  lemma {:induction false} ContainsAt(s: string, pat: string)
    ensures Contains(s, pat) <==> exists i :: OccursAt(s, pat, i)
    decreases |s|
  {
    if Contains(s, pat) {
      if IsPrefix(pat, s) {
        assert OccursAt(s, pat, 0);
      } else {
        ContainsAt(s[1..], pat);
        var i :| OccursAt(s[1..], pat, i);
        assert s[i + 1..i + 1 + |pat|] == s[1..][i..i + |pat|];
        assert OccursAt(s, pat, i + 1);
      }
    }
    if exists i :: OccursAt(s, pat, i) {
      var i :| OccursAt(s, pat, i);
      if i > 0 {
        assert s[1..][i - 1..i - 1 + |pat|] == s[i..i + |pat|];
        assert OccursAt(s[1..], pat, i - 1);
        ContainsAt(s[1..], pat);
      }
    }
  }

  /** A two-character pattern `[a, b]` occurs in `s`. */
  predicate HasPair(s: string, a: char, b: char)
    decreases |s|
  {
    |s| >= 2 && ((s[0] == a && s[1] == b) || HasPair(s[1..], a, b))
  }

  lemma {:induction false} ContainsPair(s: string, a: char, b: char)
    ensures Contains(s, [a, b]) <==> HasPair(s, a, b)
    decreases |s|
  {
    if |s| >= 2 {
      assert IsPrefix([a, b], s) <==> (s[0] == a && s[1] == b) by {
        if s[0] == a && s[1] == b {
          assert s[..2] == [a, b];
        }
      }
      ContainsPair(s[1..], a, b);
    } else if |s| == 1 {
      assert s[1..] == [];
    }
  }

  /** A pair occurs in a concatenation iff it occurs in one part or across the seam. */
  lemma {:induction false} HasPairConcat(x: string, y: string, a: char, b: char)
    ensures HasPair(x + y, a, b) <==>
            HasPair(x, a, b) || HasPair(y, a, b) ||
            (x != [] && y != [] && x[|x| - 1] == a && y[0] == b)
    decreases |x|
  {
    if x == [] {
      assert x + y == y;
    } else if |x| == 1 {
      assert (x + y)[1..] == y;
      assert !HasPair(x, a, b);
    } else {
      assert (x + y)[1..] == x[1..] + y;
      HasPairConcat(x[1..], y, a, b);
    }
  }

  /** JavaScript's `s.replace(/pat/g, rep)` for a literal, non-empty pattern:
      matches are found left to right and do not overlap. */
  function ReplaceAll(s: string, pat: string, rep: string): (r: string)
    requires |pat| > 0
    ensures !Contains(s, pat) ==> r == s
    decreases |s|
  {
    if s == [] then []
    else if IsPrefix(pat, s) then rep + ReplaceAll(s[|pat|..], pat, rep)
    else [s[0]] + ReplaceAll(s[1..], pat, rep)
  }

  /** Replacing a two-character pattern `[a, b]` leaves no pair `[c, d]` in the
      result, provided the pair is the pattern itself or was absent from the
      input, and the replacement neither contains it nor forms it at its edges. */
  lemma {:induction false} ReplacePairFree(s: string, a: char, b: char, rep: string, c: char, d: char)
    requires |rep| > 0 && rep[0] != d && rep[|rep| - 1] != c && !HasPair(rep, c, d)
    requires (c == a && d == b) || !HasPair(s, c, d)
    ensures !HasPair(ReplaceAll(s, [a, b], rep), c, d)
    decreases |s|
  {
    var pat := [a, b];
    if s == [] {
    } else if IsPrefix(pat, s) {
      var tail := s[2..];
      assert (c == a && d == b) || !HasPair(tail, c, d) by {
        if !(c == a && d == b) {
          assert !HasPair(s[1..], c, d);
        }
      }
      ReplacePairFree(tail, a, b, rep, c, d);
      HasPairConcat(rep, ReplaceAll(tail, pat, rep), c, d);
    } else {
      var tail := s[1..];
      ReplacePairFree(tail, a, b, rep, c, d);
      var r := ReplaceAll(tail, pat, rep);
      HasPairConcat([s[0]], r, c, d);
    }
  }

  /** The characters JavaScript's `trim` removes: WhiteSpace and
      LineTerminator of section 12.2 and 12.3 of ECMA-262. */
  predicate IsJsSpace(c: char) {
    c == '\t' || c == '\n' || c == '\U{000B}' || c == '\U{000C}' || c == '\r' || c == ' ' ||
    c == '\U{00A0}' || c == '\U{1680}' || ('\U{2000}' <= c <= '\U{200A}') ||
    c == '\U{2028}' || c == '\U{2029}' || c == '\U{202F}' || c == '\U{205F}' ||
    c == '\U{3000}' || c == '\U{FEFF}'
  }

  /** No character of `s` is removed by `trim`. */
  predicate NoSpace(s: string) {
    forall k :: 0 <= k < |s| ==> !IsJsSpace(s[k])
  }

  function TrimStart(s: string): (r: string)
    ensures |r| <= |s| && r == s[|s| - |r|..]
    ensures r == [] || !IsJsSpace(r[0])
    ensures forall k :: 0 <= k < |s| - |r| ==> IsJsSpace(s[k])
    decreases |s|
  {
    if s != [] && IsJsSpace(s[0]) then TrimStart(s[1..]) else s
  }

  function TrimEnd(s: string): (r: string)
    ensures |r| <= |s| && r == s[..|r|]
    ensures r == [] || !IsJsSpace(r[|r| - 1])
    ensures forall k :: |r| <= k < |s| ==> IsJsSpace(s[k])
    decreases |s|
  {
    if s != [] && IsJsSpace(s[|s| - 1]) then TrimEnd(s[..|s| - 1]) else s
  }

  /** JavaScript's `s.trim()`. */
  function Trim(s: string): (r: string)
    ensures |r| <= |s|
    ensures r == [] || (!IsJsSpace(r[0]) && !IsJsSpace(r[|r| - 1]))
  {
    TrimEnd(TrimStart(s))
  }

  /** `r` is the piece of `s` starting at `i`, with only `trim` characters
      before and after it. */
  predicate PieceAt(s: string, r: string, i: int) {
    && 0 <= i <= |s| - |r| && r == s[i..i + |r|]
    && (forall k :: 0 <= k < i ==> IsJsSpace(s[k]))
    && (forall k :: i + |r| <= k < |s| ==> IsJsSpace(s[k]))
  }

  /** `trim` keeps one contiguous piece of the text and removes only `trim`
      characters before and after it. */
  lemma TrimSpec(s: string)
    ensures exists i :: PieceAt(s, Trim(s), i)
  {
    var t := TrimStart(s);
    PieceOfSuffix(s, t, TrimEnd(t));
    assert PieceAt(s, Trim(s), |s| - |t|);
  }

  /** A prefix `r` of a suffix `t` of `s`, each cut off only at `trim` characters,
      is a piece of `s`. */
  lemma PieceOfSuffix(s: string, t: string, r: string)
    requires |t| <= |s| && t == s[|s| - |t|..] && forall k :: 0 <= k < |s| - |t| ==> IsJsSpace(s[k])
    requires |r| <= |t| && r == t[..|r|] && forall k :: |r| <= k < |t| ==> IsJsSpace(t[k])
    ensures PieceAt(s, r, |s| - |t|)
  {
    var i := |s| - |t|;
    assert r == s[i..i + |r|];
    forall k | i + |r| <= k < |s| ensures IsJsSpace(s[k]) {
      assert s[k] == t[k - i];
    }
  }

  lemma {:induction false} ContainsTrimStart(s: string, pat: string)
    requires |pat| > 0 && NoSpace(pat)
    ensures Contains(TrimStart(s), pat) == Contains(s, pat)
    decreases |s|
  {
    if s != [] && IsJsSpace(s[0]) {
      assert !IsPrefix(pat, s);
      ContainsTrimStart(s[1..], pat);
    }
  }

  /** Dropping a trailing `trim` character cannot remove an occurrence of a
      pattern free of such characters. */
  lemma {:induction false} ContainsDropLastSpace(s: string, pat: string)
    requires |pat| > 0 && NoSpace(pat)
    requires s != [] && IsJsSpace(s[|s| - 1])
    ensures Contains(s[..|s| - 1], pat) == Contains(s, pat)
    decreases |s|
  {
    var t := s[..|s| - 1];
    assert !(|pat| == |s| && IsPrefix(pat, s));
    assert IsPrefix(pat, t) <==> IsPrefix(pat, s) by {
      if |pat| <= |t| { assert t[..|pat|] == s[..|pat|]; }
    }
    if |s| == 1 {
      assert t == [];
      assert !Contains(s[1..], pat);
    } else {
      assert t[1..] == s[1..][..|s[1..]| - 1];
      ContainsDropLastSpace(s[1..], pat);
    }
  }

  lemma {:induction false} ContainsTrimEnd(s: string, pat: string)
    requires |pat| > 0 && NoSpace(pat)
    ensures Contains(TrimEnd(s), pat) == Contains(s, pat)
    decreases |s|
  {
    if s != [] && IsJsSpace(s[|s| - 1]) {
      ContainsDropLastSpace(s, pat);
      ContainsTrimEnd(s[..|s| - 1], pat);
    }
  }

  /** Trimming cannot change whether a pattern free of `trim` characters occurs. */
  lemma ContainsTrim(s: string, pat: string)
    requires |pat| > 0 && NoSpace(pat)
    ensures Contains(Trim(s), pat) == Contains(s, pat)
  {
    ContainsTrimStart(s, pat);
    ContainsTrimEnd(TrimStart(s), pat);
  }
}
