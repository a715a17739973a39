/** The string operations of Rust's standard library that the modelled code relies on. */
module Text {

  /** `char::is_whitespace`: the Unicode White_Space property. */
  predicate IsWhitespace(c: char)
  {
    var n := c as int;
    || 0x9 <= n <= 0xD
    || n == 0x20 || n == 0x85 || n == 0xA0 || n == 0x1680
    || n == 0x2028 || n == 0x2029 || n == 0x202F || n == 0x205F || n == 0x3000
    || 0x2000 <= n <= 0x200A
  }

  function TrimStart(s: string): (r: string)
  {
    if s != "" && IsWhitespace(s[0]) then TrimStart(s[1..]) else s
  }

  function TrimEnd(s: string): (r: string)
  {
    if s != "" && IsWhitespace(s[|s| - 1]) then TrimEnd(s[..|s| - 1]) else s
  }

  /** `str::trim`. */
  function Trim(s: string): (r: string)
  {
    TrimEnd(TrimStart(s))
  }

  /** `s.trim().is_empty()`; see `BlankIsTrimmedAway`. */
  predicate IsBlank(s: string)
  {
    forall i :: 0 <= i < |s| ==> IsWhitespace(s[i])
  }

  predicate IsAsciiDigit(c: char)
  {
    '0' <= c <= '9'
  }

  predicate IsAsciiUpper(c: char)
  {
    'A' <= c <= 'Z'
  }

  predicate IsAsciiLower(c: char)
  {
    'a' <= c <= 'z'
  }

  predicate IsAsciiAlnum(c: char)
  {
    IsAsciiDigit(c) || IsAsciiUpper(c) || IsAsciiLower(c)
  }

  function AsciiLowerChar(c: char): (r: char)
  {
    if IsAsciiUpper(c) then (c as int + 32) as char else c
  }

  /** `str::to_ascii_lowercase`. */
  function AsciiLower(s: string): (r: string)
    ensures |r| == |s|
    ensures forall i :: 0 <= i < |s| ==> r[i] == AsciiLowerChar(s[i])
  {
    seq(|s|, i requires 0 <= i < |s| => AsciiLowerChar(s[i]))
  }

  /** `str::starts_with`. */
  predicate StartsWith(s: string, prefix: string)
  {
    prefix <= s
  }

  /** A string whose ends are not whitespace is its own trimming. */
  lemma TrimKeeps(s: string)
    requires s == "" || (!IsWhitespace(s[0]) && !IsWhitespace(s[|s| - 1]))
    ensures Trim(s) == s
  {
  }

  /** Trimming makes a string shorter or leaves it alone. */
  lemma TrimIsNoLonger(s: string)
    ensures |Trim(s)| < |s| || Trim(s) == s
  {
    TrimStartIsNoLonger(s);
    TrimEndIsNoLonger(TrimStart(s));
  }

  lemma {:induction false} TrimStartIsNoLonger(s: string)
    ensures |TrimStart(s)| < |s| || TrimStart(s) == s
  {
    if s != "" && IsWhitespace(s[0]) {
      TrimStartIsNoLonger(s[1..]);
    }
  }

  lemma {:induction false} TrimEndIsNoLonger(s: string)
    ensures |TrimEnd(s)| < |s| || TrimEnd(s) == s
  {
    if s != "" && IsWhitespace(s[|s| - 1]) {
      TrimEndIsNoLonger(s[..|s| - 1]);
    }
  }

  lemma {:induction false} TrimEndOfBlank(s: string)
    ensures TrimEnd(s) == "" <==> IsBlank(s)
  {
    if s != "" {
      var n := |s| - 1;
      TrimEndOfBlank(s[..n]);
      if IsWhitespace(s[n]) {
        assert IsBlank(s[..n]) <==> IsBlank(s) by {
          assert forall i :: 0 <= i < n ==> s[..n][i] == s[i];
        }
      }
    }
  }

  lemma {:induction false} TrimStartOfBlank(s: string)
    ensures IsBlank(TrimStart(s)) <==> IsBlank(s)
  {
    if s != "" && IsWhitespace(s[0]) {
      TrimStartOfBlank(s[1..]);
      assert IsBlank(s[1..]) <==> IsBlank(s) by {
        assert s == [s[0]] + s[1..];
        assert forall i :: 0 < i < |s| ==> s[1..][i - 1] == s[i];
      }
    }
  }

  /** `s.trim().is_empty()` holds exactly of the strings of white space. */
  lemma BlankIsTrimmedAway(s: string)
    ensures Trim(s) == "" <==> IsBlank(s)
  {
    TrimEndOfBlank(TrimStart(s));
    TrimStartOfBlank(s);
  }

  lemma Regroup(a: string, b: string, c: string)
    ensures (a + b) + c == a + (b + c)
  {
  }

  /** White space is one of 25 characters. */
  const WHITE_SPACE: string :=
    "\t\n\U{000B}\U{000C}\r \U{0085}\U{00A0}\U{1680}"
    + "\U{2000}\U{2001}\U{2002}\U{2003}\U{2004}\U{2005}\U{2006}\U{2007}\U{2008}\U{2009}\U{200A}"
    + "\U{2028}\U{2029}\U{202F}\U{205F}\U{3000}"

  lemma WhiteSpaceExactly(c: char)
    ensures IsWhitespace(c) <==> c in WHITE_SPACE
  {
  }

  /** White space at neither end. */
  predicate HasCleanEnds(s: string)
  {
    s == "" || (!IsWhitespace(s[0]) && !IsWhitespace(s[|s| - 1]))
  }

  lemma {:induction false} TrimStartOfPadded(before: string, s: string)
    requires IsBlank(before) && (s == "" || !IsWhitespace(s[0]))
    ensures TrimStart(before + s) == s
  {
    if before == "" {
      assert before + s == s;
    } else {
      assert (before + s)[1..] == before[1..] + s;
      TrimStartOfPadded(before[1..], s);
    }
  }

  lemma {:induction false} TrimEndOfPadded(s: string, after: string)
    requires IsBlank(after) && (s == "" || !IsWhitespace(s[|s| - 1]))
    ensures TrimEnd(s + after) == s
  {
    if after == "" {
      assert s + after == s;
    } else {
      var n := |after| - 1;
      assert (s + after)[..|s| + n] == s + after[..n];
      TrimEndOfPadded(s, after[..n]);
    }
  }

  /** A string without white space at its ends is what trimming leaves of it, whatever white space surrounds it. */
  lemma PaddedIsTrimmed(before: string, s: string, after: string)
    requires IsBlank(before) && IsBlank(after) && HasCleanEnds(s)
    ensures Trim(before + s + after) == s
  {
    if s == "" {
      assert IsBlank(before + s + after);
      BlankIsTrimmedAway(before + s + after);
    } else {
      assert before + s + after == before + (s + after);
      TrimStartOfPadded(before, s + after);
      TrimEndOfPadded(s, after);
    }
  }

  lemma {:induction false} TrimStartCuts(s: string) returns (before: string)
    ensures IsBlank(before) && s == before + TrimStart(s)
    ensures TrimStart(s) == "" || !IsWhitespace(TrimStart(s)[0])
  {
    if s != "" && IsWhitespace(s[0]) {
      var rest := TrimStartCuts(s[1..]);
      before := [s[0]] + rest;
      assert s == [s[0]] + s[1..];
    } else {
      before := "";
    }
  }

  lemma {:induction false} TrimEndCuts(s: string) returns (after: string)
    ensures IsBlank(after) && s == TrimEnd(s) + after
    ensures TrimEnd(s) == "" || !IsWhitespace(TrimEnd(s)[|TrimEnd(s)| - 1])
  {
    if s != "" && IsWhitespace(s[|s| - 1]) {
      var n := |s| - 1;
      var rest := TrimEndCuts(s[..n]);
      after := rest + [s[n]];
      assert s == s[..n] + [s[n]];
    } else {
      after := "";
    }
  }

  /** Trimming cuts white space off both ends, and all of it. */
  lemma TrimCuts(s: string) returns (before: string, after: string)
    ensures s == before + Trim(s) + after
    ensures IsBlank(before) && IsBlank(after) && HasCleanEnds(Trim(s))
  {
    before := TrimStartCuts(s);
    after := TrimEndCuts(TrimStart(s));
    assert before + (Trim(s) + after) == before + Trim(s) + after;
    assert Trim(s) != "" ==> Trim(s)[0] == TrimStart(s)[0];
  }
}
