/**
 * The JavaScript string operations the book handlers rely on:
 * String.prototype.trim (strip ECMAScript white space and line terminators
 * from both ends), String.prototype.toLowerCase (restricted to ASCII letters)
 * and case-insensitive equality and substring tests, which is what the
 * handlers' `$options: "i"` regular expressions amount to on input that holds
 * no regular-expression metacharacters.
 */
module Text {

  /** The code points ECMAScript classes as WhiteSpace or LineTerminator: the ones trim() strips. */
  predicate IsWhitespace(c: char)
  {
    || c == '\t' || c == '\n' || c == '\U{000B}' || c == '\U{000C}' || c == '\r' || c == ' '
    || c == '\U{00A0}' || c == '\U{1680}' || ('\U{2000}' <= c <= '\U{200A}')
    || c == '\U{2028}' || c == '\U{2029}' || c == '\U{202F}' || c == '\U{205F}'
    || c == '\U{3000}' || c == '\U{FEFF}'
  }

  predicate AllWhitespace(s: string)
  {
    forall i :: 0 <= i < |s| ==> IsWhitespace(s[i])
  }

  /** Every character of `s` from position `lo` up to, not including, `hi` is white space. */
  predicate WhitespaceBetween(s: string, lo: int, hi: int)
    requires 0 <= lo <= hi <= |s|
  {
    forall k :: lo <= k < hi ==> IsWhitespace(s[k])
  }

  /** `s[i..j]` is what is left of `s` once a white-space prefix and a white-space suffix are cut off. */
  ghost predicate Padded(s: string, i: int, j: int)
  {
    0 <= i <= j <= |s| && WhitespaceBetween(s, 0, i) && WhitespaceBetween(s, j, |s|)
  }

  /** The number of white-space characters `s` starts with. */
  function LeadingWhitespace(s: string): (n: nat)
    ensures n <= |s| && WhitespaceBetween(s, 0, n)
    ensures n == |s| || !IsWhitespace(s[n])
  {
    if s == [] || !IsWhitespace(s[0]) then 0
    else
      var m := LeadingWhitespace(s[1..]);
      assert forall k :: 1 <= k < 1 + m ==> s[k] == s[1..][k - 1];
      1 + m
  }

  /** The number of white-space characters `s` ends with. */
  function TrailingWhitespace(s: string): (n: nat)
    ensures n <= |s| && WhitespaceBetween(s, |s| - n, |s|)
    ensures n == |s| || !IsWhitespace(s[|s| - n - 1])
  {
    if s == [] || !IsWhitespace(s[|s| - 1]) then 0
    else
      var m := TrailingWhitespace(s[..|s| - 1]);
      assert forall k :: |s| - 1 - m <= k < |s| - 1 ==> s[k] == s[..|s| - 1][k];
      1 + m
  }

  /** A white-space run followed by a non-white-space character, or by the end, is the leading white space. */
  lemma LeadingUnique(s: string, n: int)
    requires 0 <= n <= |s| && WhitespaceBetween(s, 0, n)
    requires n == |s| || !IsWhitespace(s[n])
    ensures LeadingWhitespace(s) == n
  {
    var m := LeadingWhitespace(s);
    assert m < |s| ==> !IsWhitespace(s[m]);
  }

  /** A white-space run preceded by a non-white-space character, or by the start, is the trailing white space. */
  lemma TrailingUnique(s: string, n: int)
    requires 0 <= n <= |s| && WhitespaceBetween(s, |s| - n, |s|)
    requires n == |s| || !IsWhitespace(s[|s| - n - 1])
    ensures TrailingWhitespace(s) == n
  {
    var m := TrailingWhitespace(s);
    assert m < |s| ==> !IsWhitespace(s[|s| - m - 1]);
  }

  /** Strips leading white space (String.prototype.trimStart). */
  function TrimStart(s: string): string
  {
    s[LeadingWhitespace(s)..]
  }

  /** Strips trailing white space (String.prototype.trimEnd). */
  function TrimEnd(s: string): string
  {
    s[..|s| - TrailingWhitespace(s)]
  }

  /** String.prototype.trim. */
  function Trim(s: string): (r: string)
    ensures exists i, j {:trigger Padded(s, i, j)} :: Padded(s, i, j) && r == s[i..j]
    ensures r == [] || (!IsWhitespace(r[0]) && !IsWhitespace(r[|r| - 1]))
  {
    var i := LeadingWhitespace(s);
    var t := s[i..];
    var m := TrailingWhitespace(t);
    assert Padded(s, i, |s| - m) by {
      forall k | |s| - m <= k < |s|
        ensures IsWhitespace(s[k])
      {
        assert s[k] == t[k - i];
      }
    }
    assert s[i..|s| - m] == t[..|t| - m];
    TrimEnd(TrimStart(s))
  }

  /** String.prototype.toLowerCase on one character, for the ASCII letters A-Z. */
  function LowerChar(c: char): char
  {
    if 'A' <= c <= 'Z' then (c as int - 'A' as int + 'a' as int) as char else c
  }

  /** String.prototype.toLowerCase, for the ASCII letters A-Z. */
  function ToLower(s: string): (r: string)
    ensures |r| == |s|
    ensures forall i {:trigger r[i]} :: 0 <= i < |s| ==> r[i] == LowerChar(s[i])
  {
    if s == [] then [] else [LowerChar(s[0])] + ToLower(s[1..])
  }

  /** Equality of two strings ignoring ASCII letter case. */
  predicate EqualsIgnoreCase(a: string, b: string)
  {
    ToLower(a) == ToLower(b)
  }

  /** `needle` occurs as a contiguous piece of `haystack`. */
  predicate IsInfix(needle: string, haystack: string)
  {
    exists k | 0 <= k <= |haystack| :: needle <= haystack[k..]
  }

  /** `needle` occurs in `haystack`, ignoring ASCII letter case. */
  predicate ContainsIgnoreCase(haystack: string, needle: string)
  {
    IsInfix(ToLower(needle), ToLower(haystack))
  }

  /** Lower-casing neither creates nor removes white space. */
  lemma LowerCharKeepsWhitespace(c: char)
    ensures IsWhitespace(LowerChar(c)) == IsWhitespace(c)
  {
  }

  lemma LeadingOfLower(s: string)
    ensures LeadingWhitespace(ToLower(s)) == LeadingWhitespace(s)
  {
    var lower := ToLower(s);
    forall k | 0 <= k < |s|
      ensures IsWhitespace(lower[k]) == IsWhitespace(s[k])
    {
      LowerCharKeepsWhitespace(s[k]);
    }
    LeadingUnique(lower, LeadingWhitespace(s));
  }

  lemma TrailingOfLower(s: string)
    ensures TrailingWhitespace(ToLower(s)) == TrailingWhitespace(s)
  {
    var lower := ToLower(s);
    forall k | 0 <= k < |s|
      ensures IsWhitespace(lower[k]) == IsWhitespace(s[k])
    {
      LowerCharKeepsWhitespace(s[k]);
    }
    TrailingUnique(lower, TrailingWhitespace(s));
  }

  lemma TrimStartOfLower(s: string)
    ensures TrimStart(ToLower(s)) == ToLower(TrimStart(s))
  {
    LeadingOfLower(s);
    var n := LeadingWhitespace(s);
    var back := ToLower(s[n..]);
    assert forall k {:trigger back[k]} :: 0 <= k < |s| - n ==> back[k] == ToLower(s)[n + k];
  }

  lemma TrimEndOfLower(s: string)
    ensures TrimEnd(ToLower(s)) == ToLower(TrimEnd(s))
  {
    TrailingOfLower(s);
    var n := |s| - TrailingWhitespace(s);
    var front := ToLower(s[..n]);
    assert forall k {:trigger front[k]} :: 0 <= k < n ==> front[k] == ToLower(s)[k];
  }

  /** Trimming and lower-casing commute, so the order index.js applies them in does not matter. */
  lemma TrimOfLower(s: string)
    ensures Trim(ToLower(s)) == ToLower(Trim(s))
  {
    TrimStartOfLower(s);
    TrimEndOfLower(TrimStart(s));
  }

  lemma TrimStartSkipsPadding(p: string, s: string)
    requires AllWhitespace(p)
    ensures TrimStart(p + s) == TrimStart(s)
  {
    var n := LeadingWhitespace(s);
    var ps := p + s;
    forall k | 0 <= k < |p| + n
      ensures IsWhitespace(ps[k])
    {
      if k >= |p| {
        assert ps[k] == s[k - |p|];
      }
    }
    assert |p| + n < |ps| ==> ps[|p| + n] == s[n];
    LeadingUnique(ps, |p| + n);
    assert ps[|p| + n..] == s[n..];
  }

  lemma TrimEndSkipsPadding(s: string, q: string)
    requires AllWhitespace(q)
    ensures TrimEnd(s + q) == TrimEnd(s)
  {
    var n := TrailingWhitespace(s);
    var sq := s + q;
    forall k | |sq| - (n + |q|) <= k < |sq|
      ensures IsWhitespace(sq[k])
    {
      if k < |s| {
        assert sq[k] == s[k];
      } else {
        assert sq[k] == q[k - |s|];
      }
    }
    assert n + |q| < |sq| ==> sq[|sq| - (n + |q|) - 1] == s[|s| - n - 1];
    TrailingUnique(sq, n + |q|);
    assert sq[..|s| - n] == s[..|s| - n];
  }

  /** White space that does not start the string survives TrimStart untouched. */
  lemma TrimStartOfAppend(s: string, q: string)
    requires TrimStart(s) != []
    ensures TrimStart(s + q) == TrimStart(s) + q
  {
    var n := LeadingWhitespace(s);
    var sq := s + q;
    assert sq[n] == s[n];
    forall k | 0 <= k < n
      ensures IsWhitespace(sq[k])
    {
      assert sq[k] == s[k];
    }
    LeadingUnique(sq, n);
    assert sq[n..] == s[n..] + q;
  }

  lemma TrimStartOfBlank(s: string, q: string)
    requires TrimStart(s) == []
    ensures TrimStart(s + q) == TrimStart(q)
  {
    assert LeadingWhitespace(s) == |s|;
    TrimStartSkipsPadding(s, q);
  }

  /** Surrounding white space never reaches the trimmed result. */
  lemma TrimDropsPadding(p: string, c: string, q: string)
    requires AllWhitespace(p) && AllWhitespace(q)
    ensures Trim(p + c + q) == Trim(c)
  {
    assert p + c + q == p + (c + q);
    TrimStartSkipsPadding(p, c + q);
    if TrimStart(c) == [] {
      TrimStartOfBlank(c, q);
      TrimStartSkipsPadding(q, []);
      assert q + [] == q;
    } else {
      TrimStartOfAppend(c, q);
      TrimEndSkipsPadding(TrimStart(c), q);
    }
  }
}
