/** Percent-encoding of query keys and values, as in sections 2.1 and 2.3 of RFC 3986. */
module Percent {
  import opened Basics
  import opened Digits
  import Text
  import Utf8

  predicate IsUnreserved(b: u8)
  {
    Text.IsAsciiAlnum(b as char) || b == '-' as int || b == '_' as int || b == '.' as int || b == '~' as int
  }

  function EscapeByte(b: u8): string
  {
    var n: int := b;
    if IsUnreserved(b) then [b as char] else ['%', UpperHexDigit(n / 16), UpperHexDigit(n % 16)]
  }

  function Escape(bytes: seq<u8>): string
  {
    if bytes == [] then "" else Escape(bytes[..|bytes| - 1]) + EscapeByte(bytes[|bytes| - 1])
  }

  datatype PercentError = Truncated | BadEscape | NotUtf8

  /** The bytes an encoded text stands for. */
  function Unescape(bytes: seq<u8>): Result<seq<u8>, PercentError>
  {
    if bytes == [] then Ok([])
    else if bytes[0] == '%' as int then
      if |bytes| < 3 then Err(Truncated) else
        var hi, lo := HexNibble(bytes[1]), HexNibble(bytes[2]);
        if hi.None? || lo.None? then Err(BadEscape) else
          Prepend(hi.value * 16 + lo.value, Unescape(bytes[3..]))
    else
      Prepend(if bytes[0] == '+' as int then ' ' as int else bytes[0], Unescape(bytes[1..]))
  }

  function Prepend(b: u8, rest: Result<seq<u8>, PercentError>): Result<seq<u8>, PercentError>
  {
    match rest
    case Ok(bytes) => Ok([b] + bytes)
    case Err(error) => Err(error)
  }

  function PctDecoded(input: string): Result<string, PercentError>
  {
    match Unescape(Utf8.Encode(input))
    case Err(error) => Err(error)
    case Ok(bytes) =>
      var text := Utf8.Decode(bytes);
      if text.None? then Err(NotUtf8) else Ok(text.value)
  }

  function PctEncoded(input: string): string
  {
    Escape(Utf8.Encode(input))
  }

  method PctEncode(input: string) returns (out: string)
    ensures out == PctEncoded(input)
  {
    out := "";
    var bytes := Utf8.Encode(input);
    for i := 0 to |bytes|
      invariant out == Escape(bytes[..i])
    {
      assert bytes[..i + 1][..i] == bytes[..i];
      var n: int := bytes[i];
      if IsUnreserved(bytes[i]) {
        out := out + [bytes[i] as char];
      } else {
        out := out + ['%'];
        out := out + [UpperHexDigit(n / 16)];
        out := out + [UpperHexDigit(n % 16)];
        assert out == Escape(bytes[..i]) + EscapeByte(bytes[i]);
      }
    }
    assert bytes[..|bytes|] == bytes;
  }

  /** What was decoded so far, put before the reading of what is left. */
  function Prefixed(done: seq<u8>, rest: Result<seq<u8>, PercentError>): Result<seq<u8>, PercentError>
  {
    match rest
    case Ok(bytes) => Ok(done + bytes)
    case Err(error) => Err(error)
  }

  lemma PrefixedShift(done: seq<u8>, b: u8, rest: Result<seq<u8>, PercentError>)
    ensures Prefixed(done, Prepend(b, rest)) == Prefixed(done + [b], rest)
  {
    if rest.Ok? {
      assert done + ([b] + rest.value) == (done + [b]) + rest.value;
    }
  }

  lemma PrefixedNothing(rest: Result<seq<u8>, PercentError>)
    ensures Prefixed([], rest) == rest
  {
    if rest.Ok? {
      assert [] + rest.value == rest.value;
    }
  }

  method PctDecode(input: string) returns (r: Result<string, PercentError>)
    ensures r == PctDecoded(input)
  {
    var bytes := Utf8.Encode(input);
    var out: seq<u8> := [];
    var i := 0;
    assert bytes[0..] == bytes;
    PrefixedNothing(Unescape(bytes));
    while i < |bytes|
      invariant 0 <= i <= |bytes|
      invariant Prefixed(out, Unescape(bytes[i..])) == Unescape(bytes)
    {
      if bytes[i] == '%' as int {
        if i + 2 >= |bytes| {
          return Err(Truncated);
        }
        var hi := HexNibble(bytes[i + 1]);
        if hi.None? {
          return Err(BadEscape);
        }
        var lo := HexNibble(bytes[i + 2]);
        if lo.None? {
          return Err(BadEscape);
        }
        PrefixedShift(out, hi.value * 16 + lo.value, Unescape(bytes[i + 3..]));
        assert bytes[i..][3..] == bytes[i + 3..];
        out := out + [hi.value * 16 + lo.value];
        i := i + 3;
      } else if bytes[i] == '+' as int {
        PrefixedShift(out, ' ' as int, Unescape(bytes[i + 1..]));
        assert bytes[i..][1..] == bytes[i + 1..];
        out := out + [' ' as int];
        i := i + 1;
      } else {
        PrefixedShift(out, bytes[i], Unescape(bytes[i + 1..]));
        assert bytes[i..][1..] == bytes[i + 1..];
        out := out + [bytes[i]];
        i := i + 1;
      }
    }
    assert bytes[i..] == [] && out + [] == out;
    var text := Utf8.Decode(out);
    return if text.None? then Err(NotUtf8) else Ok(text.value);
  }

  // ----- Encoding and decoding -----

  /** The character codes of an ASCII text. */
  function Codes(s: string): seq<u8>
    requires Utf8.IsAscii(s)
  {
    seq(|s|, i requires 0 <= i < |s| => s[i] as int)
  }

  lemma CodesAreBytes(s: string)
    requires Utf8.IsAscii(s)
    ensures Utf8.Encode(s) == Codes(s)
  {
    Utf8.AsciiBytes(s);
  }

  /** A character that encoded text may contain. */
  predicate IsEncodedChar(c: char)
  {
    Text.IsAsciiAlnum(c) || c == '-' || c == '_' || c == '.' || c == '~' || c == '%'
  }

  lemma {:induction false} EscapeIsClean(bytes: seq<u8>)
    ensures forall i :: 0 <= i < |Escape(bytes)| ==> IsEncodedChar(Escape(bytes)[i])
  {
    if bytes != [] {
      EscapeIsClean(bytes[..|bytes| - 1]);
    }
  }

  lemma UnescapeByte(b: u8, rest: seq<u8>)
    ensures Utf8.IsAscii(EscapeByte(b))
    ensures Unescape(Codes(EscapeByte(b)) + rest) == Prepend(b, Unescape(rest))
  {
    var n: int := b;
    var bytes := Codes(EscapeByte(b)) + rest;
    if IsUnreserved(b) {
      assert bytes[1..] == rest;
    } else {
      assert bytes[3..] == rest;
      assert HexNibble(UpperHexDigit(n / 16) as int) == Some(n / 16);
      assert HexNibble(UpperHexDigit(n % 16) as int) == Some(n % 16);
      assert n / 16 * 16 + n % 16 == n;
    }
  }

  lemma {:induction false} UnescapeEscape(bytes: seq<u8>, rest: seq<u8>)
    ensures Utf8.IsAscii(Escape(bytes))
    ensures Unescape(Codes(Escape(bytes)) + rest) == Prefixed(bytes, Unescape(rest))
  {
    EscapeIsClean(bytes);
    if bytes == [] {
      assert Codes("") + rest == rest;
      PrefixedNothing(Unescape(rest));
    } else {
      var n := |bytes| - 1;
      var last := EscapeByte(bytes[n]);
      UnescapeByte(bytes[n], rest);
      UnescapeEscape(bytes[..n], Codes(last) + rest);
      CodesConcat(Escape(bytes[..n]), last, rest);
      PrefixedShift(bytes[..n], bytes[n], Unescape(rest));
      assert bytes[..n] + [bytes[n]] == bytes;
    }
  }

  lemma CodesConcat(a: string, b: string, rest: seq<u8>)
    requires Utf8.IsAscii(a) && Utf8.IsAscii(b)
    ensures Utf8.IsAscii(a + b)
    ensures Codes(a + b) + rest == Codes(a) + (Codes(b) + rest)
  {
  }

  /** Every string is restored from its encoding, which uses only unreserved characters and percent signs. */
  lemma PercentRoundTrip(s: string)
    ensures PctDecoded(PctEncoded(s)) == Ok(s)
    ensures forall i :: 0 <= i < |PctEncoded(s)| ==> IsEncodedChar(PctEncoded(s)[i])
    ensures PctEncoded(s) == "" <==> s == ""
  {
    var bytes := Utf8.Encode(s);
    UnescapeEscape(bytes, []);
    CodesAreBytes(Escape(bytes));
    assert Codes(Escape(bytes)) + [] == Codes(Escape(bytes));
    assert Prefixed(bytes, Unescape([])) == Ok(bytes) by { assert bytes + [] == bytes; }
    EscapeIsClean(bytes);
    Utf8.DecodeEncode(s);
    if s == "" {
      assert Escape([]) == "";
    }
  }

  /** Each percent sign starts an escape: it is followed by two hexadecimal digits. */
  ghost predicate EscapesAreComplete(bytes: seq<u8>)
  {
    forall i :: 0 <= i < |bytes| && bytes[i] == '%' as int ==>
      i + 2 < |bytes| && HexNibble(bytes[i + 1]).Some? && HexNibble(bytes[i + 2]).Some?
  }

  /** Text is decoded exactly when every percent sign in it starts a complete escape. */
  lemma {:induction false} UnescapeSucceeds(bytes: seq<u8>)
    ensures Unescape(bytes).Ok? <==> EscapesAreComplete(bytes)
  {
    if bytes != [] {
      if bytes[0] != '%' as int {
        UnescapeSucceeds(bytes[1..]);
        assert forall i :: 0 < i < |bytes| ==> bytes[i] == bytes[1..][i - 1];
        assert EscapesAreComplete(bytes) <==> EscapesAreComplete(bytes[1..]) by { ShiftEscapes(bytes, 1); }
      } else if |bytes| >= 3 && HexNibble(bytes[1]).Some? && HexNibble(bytes[2]).Some? {
        UnescapeSucceeds(bytes[3..]);
        assert bytes[1] != '%' as int && bytes[2] != '%' as int;
        ShiftEscapes(bytes, 3);
      }
    }
  }

  lemma ShiftEscapes(bytes: seq<u8>, k: nat)
    requires k <= |bytes|
    requires forall i :: 0 <= i < k && bytes[i] == '%' as int ==>
               i + 2 < |bytes| && HexNibble(bytes[i + 1]).Some? && HexNibble(bytes[i + 2]).Some?
    ensures EscapesAreComplete(bytes) <==> EscapesAreComplete(bytes[k..])
  {
    var tail := bytes[k..];
    assert forall i :: k <= i < |bytes| ==> bytes[i] == tail[i - k];
    if EscapesAreComplete(bytes) {
      forall i | 0 <= i < |tail| && tail[i] == '%' as int
        ensures i + 2 < |tail| && HexNibble(tail[i + 1]).Some? && HexNibble(tail[i + 2]).Some?
      {
        assert bytes[i + k] == '%' as int;
      }
    }
    if EscapesAreComplete(tail) {
      forall i | k <= i < |bytes| && bytes[i] == '%' as int
        ensures i + 2 < |bytes| && HexNibble(bytes[i + 1]).Some? && HexNibble(bytes[i + 2]).Some?
      {
        assert tail[i - k] == '%' as int;
      }
    }
  }

  // ----- The encoded form -----

  predicate IsUnreservedChar(c: char)
  {
    Text.IsAsciiAlnum(c) || c == '-' || c == '_' || c == '.' || c == '~'
  }

  predicate IsCapitalHexDigit(c: char)
  {
    Text.IsAsciiDigit(c) || 'A' <= c <= 'F'
  }

  /** Exactly the unreserved bytes stand for themselves; every other byte is escaped with two digits in capitals. */
  lemma ByteIsEscaped(b: u8)
    ensures IsUnreservedChar(b as char) ==> EscapeByte(b) == [b as char]
    ensures !IsUnreservedChar(b as char) ==>
              var s := EscapeByte(b);
              && |s| == 3 && s[0] == '%' && IsCapitalHexDigit(s[1]) && IsCapitalHexDigit(s[2])
              && HexNibble(s[1] as int).value * 16 + HexNibble(s[2] as int).value == b
  {
    var n: int := b;
    assert n / 16 * 16 + n % 16 == n;
  }

  lemma {:induction false} EscapeConcat(a: seq<u8>, b: seq<u8>)
    ensures Escape(a + b) == Escape(a) + Escape(b)
  {
    if b == [] {
      assert a + b == a;
    } else {
      var n := |b| - 1;
      assert (a + b)[..|a| + n] == a + b[..n];
      EscapeConcat(a, b[..n]);
      Text.Regroup(Escape(a), Escape(b[..n]), EscapeByte(b[n]));
    }
  }

  predicate IsUnreservedText(s: string)
  {
    forall i :: 0 <= i < |s| ==> IsUnreservedChar(s[i])
  }

  lemma {:induction false} CodesAreKept(s: string)
    requires IsUnreservedText(s) && Utf8.IsAscii(s)
    ensures Escape(Codes(s)) == s
  {
    if s != "" {
      var n := |s| - 1;
      CodesAreKept(s[..n]);
      CodesOfPrefix(s, n);
      assert EscapeByte(s[n] as int) == [s[n]];
      assert s == s[..n] + [s[n]];
    }
  }

  lemma CodesOfPrefix(s: string, n: nat)
    requires Utf8.IsAscii(s) && n < |s|
    ensures Codes(s)[..n] == Codes(s[..n]) && Codes(s)[n] == s[n] as int
  {
  }

  /** Text of unreserved characters is its own encoding. */
  lemma UnreservedIsKept(s: string)
    requires IsUnreservedText(s)
    ensures PctEncoded(s) == s
  {
    CodesAreBytes(s);
    CodesAreKept(s);
  }
}
