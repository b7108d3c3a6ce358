/**
 JavaScript's `String.prototype.trim`, which both todo views use to decide
 whether an input is blank and (in the persisted view) to clean the text that is
 stored. `trim` removes the characters of ECMAScript's WhiteSpace and
 LineTerminator productions from both ends of a string.
 */
module Whitespace {

  /** ECMAScript WhiteSpace (TAB, VT, FF, ZWNBSP and the Unicode category Zs)
      together with LineTerminator (LF, CR, LS, PS). Every one of them lies in
      the Basic Multilingual Plane, so a UTF-16 code unit and a Unicode scalar
      value agree on them. */
  predicate IsWhitespace(c: char)
  {
    || c == '\t' || c == '\n' || c == '\U{B}' || c == '\U{C}' || c == '\r'
    || c == ' ' || c == '\U{A0}' || c == '\U{1680}'
    || ('\U{2000}' <= c <= '\U{200A}')
    || c == '\U{2028}' || c == '\U{2029}' || c == '\U{202F}' || c == '\U{205F}'
    || c == '\U{3000}' || c == '\U{FEFF}'
  }

  predicate AllWhitespace(s: string)
  {
    forall i :: 0 <= i < |s| ==> IsWhitespace(s[i])
  }

  /** Drops the leading whitespace: what is left is a suffix of `s` that is
      empty or starts with a non-whitespace character. */
  function TrimStart(s: string): (r: string)
    ensures |r| <= |s| && r == s[|s| - |r|..]
    ensures AllWhitespace(s[..|s| - |r|])
    ensures r == [] || !IsWhitespace(r[0])
    decreases |s|
  {
    if |s| > 0 && IsWhitespace(s[0]) then TrimStart(s[1..]) else s
  }

  /** Drops the trailing whitespace: what is left is a prefix of `s` that is
      empty or ends with a non-whitespace character. */
  function TrimEnd(s: string): (r: string)
    ensures |r| <= |s| && r == s[..|r|]
    ensures AllWhitespace(s[|r|..])
    ensures r == [] || !IsWhitespace(r[|r| - 1])
    decreases |s|
  {
    if |s| > 0 && IsWhitespace(s[|s| - 1]) then TrimEnd(s[..|s| - 1]) else s
  }

  /** `s.trim()`: the contiguous middle of `s` left after removing whitespace
      from both ends. */
  function Trim(s: string): (r: string)
    ensures |r| <= |s|
    ensures r == [] || (!IsWhitespace(r[0]) && !IsWhitespace(r[|r| - 1]))
    ensures r == [] <==> AllWhitespace(s)
  {
    var t := TrimStart(s);
    var r := TrimEnd(t);
    TrimPieces(s, |s| - |t|, t, r);
    r
  }

  /** `trim` removes nothing but whitespace: its result is the slice of `s`
      between a whitespace prefix and a whitespace suffix. */
  lemma TrimIsMiddle(s: string)
    ensures exists k :: 0 <= k <= |s| - |Trim(s)| && Trim(s) == s[k..k + |Trim(s)|]
                        && AllWhitespace(s[..k]) && AllWhitespace(s[k + |Trim(s)|..])
  {
    var t := TrimStart(s);
    var k := |s| - |t|;
    TrimPieces(s, k, t, TrimEnd(t));
    assert Trim(s) == TrimEnd(t);
    assert 0 <= k <= |s| - |Trim(s)| && Trim(s) == s[k..k + |Trim(s)|];
  }

  /** How the two one-sided trims compose: `s` is leading whitespace, then
      `r`, then trailing whitespace. */
  lemma TrimPieces(s: string, k: nat, t: string, r: string)
    requires k <= |s| && t == s[k..] && AllWhitespace(s[..k])
    requires |r| <= |t| && r == t[..|r|] && AllWhitespace(t[|r|..])
    requires t == [] || !IsWhitespace(t[0])
    requires r == [] || !IsWhitespace(r[|r| - 1])
    ensures k + |r| <= |s| && r == s[k..k + |r|] && AllWhitespace(s[k + |r|..])
    ensures r == [] || (!IsWhitespace(r[0]) && !IsWhitespace(r[|r| - 1]))
    ensures r == [] <==> AllWhitespace(s)
  {
    assert s[k + |r|..] == t[|r|..];
    if r == [] {
      // all of `t` is trailing whitespace, so `t` is empty and `s` is all prefix
      assert t == [];
      assert s == s[..k];
    } else {
      assert r[0] == t[0] == s[k];
    }
  }

  lemma {:induction false} TrimStartPadded(a: string, b: string)
    requires AllWhitespace(a) && (b == [] || !IsWhitespace(b[0]))
    ensures TrimStart(a + b) == b
    decreases |a|
  {
    if |a| > 0 {
      assert (a + b)[1..] == a[1..] + b;
      TrimStartPadded(a[1..], b);
    }
  }

  lemma {:induction false} TrimEndPadded(b: string, c: string)
    requires AllWhitespace(c) && (b == [] || !IsWhitespace(b[|b| - 1]))
    ensures TrimEnd(b + c) == b
    decreases |c|
  {
    if |c| > 0 {
      assert (b + c)[..|b + c| - 1] == b + c[..|c| - 1];
      TrimEndPadded(b, c[..|c| - 1]);
    }
  }

  /** The converse of `TrimIsMiddle`: text with non-whitespace ends, padded
      with whitespace on either side, is exactly what `trim` gives back. */
  lemma TrimPadded(a: string, b: string, c: string)
    requires AllWhitespace(a) && AllWhitespace(c)
    requires b == [] || (!IsWhitespace(b[0]) && !IsWhitespace(b[|b| - 1]))
    ensures Trim(a + b + c) == b
  {
    if b == [] {
      assert a + b + c == a + c;
      assert AllWhitespace(a + c) by {
        forall i | 0 <= i < |a + c|
          ensures IsWhitespace((a + c)[i])
        {
          if i >= |a| {
            assert (a + c)[i] == c[i - |a|];
          }
        }
      }
    } else {
      assert a + b + c == a + (b + c);
      TrimStartPadded(a, b + c);
      TrimEndPadded(b, c);
    }
  }

  /** JavaScript's truthiness test `!s.trim()`: the trimmed string is empty. */
  predicate IsBlank(s: string)
  {
    Trim(s) == []
  }

  /** Non-empty text with no whitespace at either end: the shape of every
      text the persisted view stores. */
  predicate IsTidy(s: string)
  {
    s != [] && !IsWhitespace(s[0]) && !IsWhitespace(s[|s| - 1])
  }

  /** A blank string is one made only of whitespace. */
  lemma BlankIffAllWhitespace(s: string)
    ensures IsBlank(s) <==> AllWhitespace(s)
  {
  }

  /** Tidy text is exactly the text `trim` leaves unchanged and not blank. */
  lemma TidyIffTrimFixed(s: string)
    ensures IsTidy(s) <==> (s != [] && Trim(s) == s)
  {
    if IsTidy(s) {
      assert TrimStart(s) == s;
      assert TrimEnd(s) == s;
    }
  }

  /** `trim` is idempotent, and whatever it returns for non-blank input is tidy. */
  lemma TrimIdempotent(s: string)
    ensures Trim(Trim(s)) == Trim(s)
    ensures !IsBlank(s) ==> IsTidy(Trim(s))
  {
    var r := Trim(s);
    if r != [] {
      TidyIffTrimFixed(r);
    }
  }
}
