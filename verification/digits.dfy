/** Numbers and bytes as text: decimal integers and hexadecimal strings. */
module Digits {
  import opened Basics
  import Text

  // ----- Decimal -----

  /** `to_string` of an unsigned integer. */
  function ToDecimal(n: nat): string
  {
    var digit := ['0' + (n % 10) as char];
    if n < 10 then digit else ToDecimal(n / 10) + digit
  }

  predicate AllDigits(s: string)
  {
    forall i :: 0 <= i < |s| ==> Text.IsAsciiDigit(s[i])
  }

  function DecimalValue(s: string): nat
    requires AllDigits(s)
  {
    if s == "" then 0 else DecimalValue(s[..|s| - 1]) * 10 + (s[|s| - 1] as int - '0' as int)
  }

  /** `parse` of an unsigned integer no larger than `max`: digits, at most one leading plus, no overflow. */
  function ParseUnsigned(s: string, max: nat): Option<nat>
  {
    var digits := if s != "" && s[0] == '+' then s[1..] else s;
    if digits == "" || !AllDigits(digits) || DecimalValue(digits) > max then None else Some(DecimalValue(digits))
  }

  lemma {:induction false} DecimalRoundTrip(n: nat)
    ensures ToDecimal(n) != "" && AllDigits(ToDecimal(n)) && DecimalValue(ToDecimal(n)) == n
  {
    if n >= 10 {
      DecimalRoundTrip(n / 10);
      var s := ToDecimal(n);
      assert s[..|s| - 1] == ToDecimal(n / 10);
    }
  }

  /** A printed number parses to itself exactly when it is in range. */
  lemma PrintedNumberParses(n: nat, max: nat)
    ensures ParseUnsigned(ToDecimal(n), max) == if n <= max then Some(n) else None
  {
    DecimalRoundTrip(n);
  }

  // ----- Hexadecimal -----

  function HexDigit(n: nat): char
    requires n < 16
  {
    if n < 10 then '0' + n as char else 'a' + (n - 10) as char
  }

  function UpperHexDigit(n: nat): char
    requires n < 16
  {
    if n < 10 then '0' + n as char else 'A' + (n - 10) as char
  }

  /** The value of a hexadecimal digit of either case. */
  function HexNibble(c: int): (n: Option<nat>)
    ensures n.Some? ==> n.value < 16
  {
    if '0' as int <= c <= '9' as int then Some(c - '0' as int)
    else if 'a' as int <= c <= 'f' as int then Some(10 + c - 'a' as int)
    else if 'A' as int <= c <= 'F' as int then Some(10 + c - 'A' as int)
    else None
  }

  /** `hex::encode`. */
  function HexEncode(bytes: seq<u8>): string
  {
    if bytes == [] then "" else
      var b: int := bytes[0];
      [HexDigit(b / 16), HexDigit(b % 16)] + HexEncode(bytes[1..])
  }

  /** `hex::decode`. */
  function HexDecode(s: string): Option<seq<u8>>
  {
    if s == "" then Some([])
    else if |s| == 1 then None
    else
      var hi, lo, rest := HexNibble(s[0] as int), HexNibble(s[1] as int), HexDecode(s[2..]);
      if hi.None? || lo.None? || rest.None? then None else Some([hi.value * 16 + lo.value] + rest.value)
  }

  /** A digit or a small letter from `a` to `f`. */
  predicate IsLowerHex(c: char)
  {
    Text.IsAsciiDigit(c) || 'a' <= c <= 'f'
  }

  predicate AllLowerHex(s: string)
  {
    forall i :: 0 <= i < |s| ==> IsLowerHex(s[i])
  }

  lemma {:induction false} HexRoundTrip(bytes: seq<u8>)
    ensures HexDecode(HexEncode(bytes)) == Some(bytes)
    ensures |HexEncode(bytes)| == 2 * |bytes| && AllLowerHex(HexEncode(bytes))
  {
    if bytes != [] {
      HexRoundTrip(bytes[1..]);
      var b: int := bytes[0];
      var s, rest := HexEncode(bytes), HexEncode(bytes[1..]);
      assert s[2..] == rest;
      assert forall i :: 2 <= i < |s| ==> s[i] == rest[i - 2];
      assert bytes == [bytes[0]] + bytes[1..];
      assert b / 16 * 16 + b % 16 == b;
    }
  }

  // ----- Hexadecimal arguments -----

  function StripHexPrefix(s: string): string
  {
    if |s| >= 2 && s[0] == '0' && (s[1] == 'x' || s[1] == 'X') then s[2..] else s
  }

  /** A hexadecimal argument without surrounding space or prefix, in small letters. */
  function NormalizeHexArg(s: string): string
  {
    Text.AsciiLower(StripHexPrefix(Text.Trim(s)))
  }

  /** Small hexadecimal text is already normal. */
  lemma LowerHexIsNormal(s: string)
    requires AllLowerHex(s)
    ensures NormalizeHexArg(s) == s && StripHexPrefix(s) == s
  {
    Text.TrimKeeps(s);
    assert Text.AsciiLower(s) == s;
  }

  predicate IsHexDigit(c: char)
  {
    '0' <= c <= '9' || 'a' <= c <= 'f' || 'A' <= c <= 'F'
  }

  lemma PrefixComesOff(prefix: string, digits: string)
    requires prefix in ["", "0x", "0X"]
    requires digits != "" && forall i :: 0 <= i < |digits| ==> IsHexDigit(digits[i])
    ensures StripHexPrefix(prefix + digits) == digits && Text.HasCleanEnds(prefix + digits)
  {
    var s := prefix + digits;
    assert s[|s| - 1] == digits[|digits| - 1];
    assert prefix == "" ==> s == digits;
    assert s[|prefix|..] == digits;
  }

  /** A hexadecimal argument may have white space around it and one prefix in front: what counts are its digits. */
  lemma HexArgExactly(before: string, prefix: string, digits: string, after: string)
    requires Text.IsBlank(before) && Text.IsBlank(after) && prefix in ["", "0x", "0X"]
    requires digits != "" && forall i :: 0 <= i < |digits| ==> IsHexDigit(digits[i])
    ensures NormalizeHexArg(before + (prefix + digits) + after) == Text.AsciiLower(digits)
  {
    PrefixComesOff(prefix, digits);
    Text.PaddedIsTrimmed(before, prefix + digits, after);
  }
}
