/**
 * The three ECMAScript string operations the session search relies on:
 * `String.prototype.toLowerCase`, `String.prototype.trim` and
 * `String.prototype.includes`, and the normalisation `s.toLowerCase().trim()`
 * that both the query and every session title go through.
 */
module JsString {

  // ---------------------------------------------------------------------------
  // toLowerCase
  // ---------------------------------------------------------------------------

  /** Case mapping of one character; only the ASCII letters are mapped. */
  function LowerChar(c: char): char
  {
    if 'A' <= c <= 'Z' then (c as int + 32) as char else c
  }

  /** A character that lower-casing leaves alone. */
  predicate IsLower(c: char)
  {
    LowerChar(c) == c
  }

  /** `s.toLowerCase()`, character by character. */
  function ToLower(s: string): (r: string)
    ensures |r| == |s|
    ensures forall i {:trigger r[i]} :: 0 <= i < |s| ==> r[i] == LowerChar(s[i])
  {
    if s == [] then [] else [LowerChar(s[0])] + ToLower(s[1..])
  }

  // ---------------------------------------------------------------------------
  // trim
  // ---------------------------------------------------------------------------

  /** ECMAScript WhiteSpace and LineTerminator code points: what `trim` removes. */
  predicate IsSpace(c: char)
  {
    || c == '\t' || c == '\n' || c == '\U{B}' || c == '\U{C}' || c == '\r' || c == ' '
    || c == '\U{A0}' || c == '\U{1680}' || ('\U{2000}' <= c <= '\U{200A}')
    || c == '\U{2028}' || c == '\U{2029}' || c == '\U{202F}' || c == '\U{205F}'
    || c == '\U{3000}' || c == '\U{FEFF}'
  }

  /** A string made of white space only (the empty string included). */
  predicate AllSpace(s: string)
  {
    forall i :: 0 <= i < |s| ==> IsSpace(s[i])
  }

  /** Neither begins nor ends with white space. */
  predicate IsTrimmed(s: string)
  {
    s == [] || (!IsSpace(s[0]) && !IsSpace(s[|s| - 1]))
  }

  /** Removes leading white space: the first `|s| - |r|` characters are white space and the
      result does not begin with white space; `TrimStartIsSuffix` shows that the result is
      what follows them. */
  function TrimStart(s: string): (r: string)
    ensures |r| <= |s|
    ensures forall i :: 0 <= i < |s| - |r| ==> IsSpace(s[i])
    ensures r == [] || !IsSpace(r[0])
  {
    if s != [] && IsSpace(s[0]) then
      var r := TrimStart(s[1..]);
      assert forall i :: 1 <= i < |s| ==> s[i] == s[1..][i - 1];
      r
    else s
  }

  /** What `TrimStart` leaves is the tail of `s`, character for character. */
  lemma {:induction false} TrimStartIsSuffix(s: string)
    ensures forall i :: 0 <= i < |TrimStart(s)| ==> TrimStart(s)[i] == s[|s| - |TrimStart(s)| + i]
    decreases |s|
  {
    if s != [] && IsSpace(s[0]) {
      TrimStartIsSuffix(s[1..]);
    }
  }

  /** Removes trailing white space: the result is the first `|r|` characters of `s`, the
      characters after them are white space, and the result does not end with white
      space. */
  function TrimEnd(s: string): (r: string)
    ensures |r| <= |s|
    ensures forall i {:trigger r[i]} :: 0 <= i < |r| ==> r[i] == s[i]
    ensures forall i :: |r| <= i < |s| ==> IsSpace(s[i])
    ensures r == [] || !IsSpace(r[|r| - 1])
  {
    if s != [] && IsSpace(s[|s| - 1]) then
      var r := TrimEnd(s[..|s| - 1]);
      assert forall i :: 0 <= i < |s| - 1 ==> s[i] == s[..|s| - 1][i];
      r
    else s
  }

  /** `s.trim()`: the result is trimmed, and it is empty exactly when `s` is white space
      only. */
  function Trim(s: string): (r: string)
    ensures IsTrimmed(r)
    ensures r == [] <==> AllSpace(s)
  {
    var t := TrimStart(s);
    TrimEndOfTrimmedStart(s, t);
    TrimEnd(t)
  }

  /** `r` is what is left of `s` once a white-space prefix and a white-space suffix are
      cut off: a contiguous piece of `s`, from some index `k` on. */
  predicate IsTrimOf(r: string, s: string)
  {
    exists k :: 0 <= k && k + |r| <= |s| && r == s[k..k + |r|]
      && AllSpace(s[..k]) && AllSpace(s[k + |r|..])
  }

  /** `Trim` keeps the characters between the leading and the trailing white space, in
      order. */
  lemma TrimIsInfix(s: string)
    ensures IsTrimOf(Trim(s), s)
  {
    var t := TrimStart(s);
    var r := TrimEnd(t);
    assert r == Trim(s);
    var d := |s| - |t|;
    TrimStartIsSuffix(s);
    assert r == s[d..d + |r|] by {
      forall i | 0 <= i < |r|
        ensures r[i] == s[d + i]
      {
        assert r[i] == t[i];
      }
    }
    assert AllSpace(s[..d]);
    assert AllSpace(s[d + |r|..]) by {
      var tail := s[d + |r|..];
      forall j | 0 <= j < |tail|
        ensures IsSpace(tail[j])
      {
        assert tail[j] == s[d + |r| + j] == t[|r| + j];
      }
    }
  }

  /** The emptiness fact `Trim` promises, for `t` the result of trimming the start of
      `s`. */
  lemma TrimEndOfTrimmedStart(s: string, t: string)
    requires t == TrimStart(s)
    ensures TrimEnd(t) == [] <==> AllSpace(s)
  {
    if t != [] {
      // The first character left by `TrimStart` is not a space, so `TrimEnd` keeps it.
      assert !IsSpace(t[0]);
      assert TrimEnd(t) != [];
    }
  }

  /** Trimming a trimmed string changes nothing. */
  lemma TrimTrimmed(s: string)
    requires IsTrimmed(s)
    ensures Trim(s) == s
  {
  }

  // ---------------------------------------------------------------------------
  // includes
  // ---------------------------------------------------------------------------

  /** `s.startsWith(prefix)`. */
  predicate StartsWith(s: string, prefix: string)
  {
    |prefix| <= |s| && s[..|prefix|] == prefix
  }

  /** `s.includes(sub)`: `sub` starts at some position of `s` (every string includes ""). */
  predicate Contains(s: string, sub: string)
    decreases |s|
  {
    StartsWith(s, sub) || (s != [] && Contains(s[1..], sub))
  }

  /** `sub` occurs in `s` starting at index `i`. */
  predicate OccursAt(s: string, sub: string, i: int)
  {
    0 <= i && i + |sub| <= |s| && s[i..i + |sub|] == sub
  }

  /** `Contains` agrees with the index-based definition of `includes`: some position `i` of
      `s` starts a copy of `sub`. */
  lemma {:induction false} ContainsIffOccurs(s: string, sub: string)
    ensures Contains(s, sub) <==> exists i :: OccursAt(s, sub, i)
    decreases |s|
  {
    if StartsWith(s, sub) {
      assert OccursAt(s, sub, 0);
    } else if s != [] {
      ContainsIffOccurs(s[1..], sub);
      if i :| OccursAt(s, sub, i) && i != 0 {
        assert s[1..][i - 1..i - 1 + |sub|] == s[i..i + |sub|];
        assert OccursAt(s[1..], sub, i - 1);
      }
      if j :| OccursAt(s[1..], sub, j) {
        assert s[1..][j..j + |sub|] == s[j + 1..j + 1 + |sub|];
        assert OccursAt(s, sub, j + 1);
      }
    }
  }

  /** The empty string includes only the empty string. */
  lemma EmptyContainsOnlyEmpty(sub: string)
    ensures Contains("", sub) <==> sub == ""
  {
  }

  // ---------------------------------------------------------------------------
  // Normalisation: s.toLowerCase().trim()
  // ---------------------------------------------------------------------------

  /** `s.toLowerCase().trim()`. */
  function Normalize(s: string): string
  {
    Trim(ToLower(s))
  }

  /** Lower-casing never creates nor removes white space. */
  lemma LowerKeepsSpace(c: char)
    ensures IsSpace(LowerChar(c)) <==> IsSpace(c)
  {
  }

  /** A normalised string is trimmed and has no upper-case ASCII letter. */
  lemma {:induction false} NormalizeShape(s: string)
    ensures IsTrimmed(Normalize(s))
    ensures forall i :: 0 <= i < |Normalize(s)| ==> IsLower(Normalize(s)[i])
  {
    var t := ToLower(s);
    var u := TrimStart(t);
    var r := TrimEnd(u);
    assert r == Normalize(s);
    var d := |t| - |u|;
    TrimStartIsSuffix(t);
    forall i | 0 <= i < |r|
      ensures IsLower(r[i])
    {
      assert r[i] == u[i] == t[d + i];
      LowerCharIsLower(s[d + i]);
    }
  }

  /** The case mapping of a character is left alone by a second mapping. */
  lemma LowerCharIsLower(c: char)
    ensures IsLower(LowerChar(c))
  {
  }

  /** A string with no upper-case ASCII letter is its own lower-case form. */
  lemma {:induction false} ToLowerFixed(s: string)
    requires forall i :: 0 <= i < |s| ==> IsLower(s[i])
    ensures ToLower(s) == s
  {
  }

  /** Normalising twice is normalising once. */
  lemma {:induction false} NormalizeIdempotent(s: string)
    ensures Normalize(Normalize(s)) == Normalize(s)
  {
    var n := Normalize(s);
    NormalizeShape(s);
    ToLowerFixed(n);
    TrimTrimmed(n);
  }

  /** A query normalises to the empty string exactly when it is white space only. */
  lemma {:induction false} NormalizeEmptyIff(s: string)
    ensures Normalize(s) == "" <==> AllSpace(s)
  {
    var t := ToLower(s);
    forall i | 0 <= i < |s|
      ensures IsSpace(t[i]) <==> IsSpace(s[i])
    {
      LowerKeepsSpace(s[i]);
    }
    assert AllSpace(t) <==> AllSpace(s);
  }

}
