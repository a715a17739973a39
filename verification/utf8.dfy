/** UTF-8, as `str::as_bytes` writes it and `String::from_utf8` checks it. */
module Utf8 {
  import opened Basics

  /** The bytes of one character: its number in groups of six bits, the first byte marked with the width. */
  function EncodeChar(c: char): seq<u8>
  {
    var n := c as int;
    var n1 := n / 0x40;
    var n2 := n1 / 0x40;
    var n3 := n2 / 0x40;
    if n < 0x80 then [n]
    else if n < 0x800 then [0xC0 + n1, 0x80 + n % 0x40]
    else if n < 0x1_0000 then [0xE0 + n2, 0x80 + n1 % 0x40, 0x80 + n % 0x40]
    else [0xF0 + n3, 0x80 + n2 % 0x40, 0x80 + n1 % 0x40, 0x80 + n % 0x40]
  }

  /** The bytes of a string. */
  function Encode(s: string): seq<u8>
  {
    if s == "" then [] else EncodeChar(s[0]) + Encode(s[1..])
  }

  predicate IsContinuation(b: u8)
  {
    0x80 <= b < 0xC0
  }

  predicate IsScalar(n: int)
  {
    0 <= n < 0xD800 || 0xE000 <= n <= 0x10FFFF
  }

  /** How many bytes the character at the front of a buffer takes, judging by its first byte; 0 for none. */
  function Width(b: seq<u8>): nat
  {
    if b == [] then 0
    else if b[0] < 0x80 then 1
    else if 0xC0 <= b[0] < 0xE0 then 2
    else if 0xE0 <= b[0] < 0xF0 then 3
    else if 0xF0 <= b[0] < 0xF8 then 4
    else 0
  }

  /** The number with one more group of six bits. */
  function Extend(high: int, b: u8): int
  {
    var low: int := b;
    high * 0x40 + (low - 0x80)
  }

  /** The number spelled by the first `width` bytes, without any check of its form. */
  function RawValue(b: seq<u8>, width: nat): int
    requires 1 <= width <= 4 && width <= |b|
  {
    var first: int := b[0];
    if width == 1 then first
    else if width == 2 then Extend(first - 0xC0, b[1])
    else if width == 3 then Extend(Extend(first - 0xE0, b[1]), b[2])
    else Extend(Extend(Extend(first - 0xF0, b[1]), b[2]), b[3])
  }

  /** The smallest number that needs `width` bytes. */
  function Smallest(width: nat): int
  {
    if width <= 1 then 0 else if width == 2 then 0x80 else if width == 3 then 0x800 else 0x1_0000
  }

  /** A well-formed character stands at the front: complete, continued properly, a scalar value, and not overlong. */
  predicate StartsWithChar(b: seq<u8>)
  {
    var width := Width(b);
    && 1 <= width <= |b|
    && (forall i :: 1 <= i < width ==> IsContinuation(b[i]))
    && IsScalar(RawValue(b, width))
    && RawValue(b, width) >= Smallest(width)
  }

  /** `String::from_utf8`. */
  function Decode(b: seq<u8>): Option<string>
    decreases |b|
  {
    if b == [] then Some("")
    else if !StartsWithChar(b) then None
    else
      var rest := Decode(b[Width(b)..]);
      if rest.None? then None else Some([RawValue(b, Width(b)) as char] + rest.value)
  }

  lemma EncodedCharIsRead(c: char, rest: seq<u8>)
    ensures var b := EncodeChar(c) + rest;
            && StartsWithChar(b)
            && Width(b) == |EncodeChar(c)|
            && RawValue(b, Width(b)) == c as int
            && b[Width(b)..] == rest
  {
  }

  /** Every string is read back from its bytes. */
  lemma {:induction false} DecodeEncode(s: string)
    ensures Decode(Encode(s)) == Some(s)
  {
    if s != "" {
      DecodeEncode(s[1..]);
      EncodedCharIsRead(s[0], Encode(s[1..]));
      assert s == [s[0]] + s[1..];
      assert EncodeChar(s[0]) != [];
    }
  }

  lemma EncodeCons(c: char, rest: string, head: seq<u8>, tail: seq<u8>)
    requires EncodeChar(c) == head && Encode(rest) == tail
    ensures Encode([c] + rest) == head + tail
  {
    assert ([c] + rest)[1..] == rest;
  }

  lemma ExtendSplits(high: int, b: u8)
    requires IsContinuation(b)
    ensures Extend(high, b) / 0x40 == high && 0x80 + Extend(high, b) % 0x40 == b
  {
  }

  lemma ReadCharIsEncoded(b: seq<u8>)
    requires StartsWithChar(b)
    ensures EncodeChar(RawValue(b, Width(b)) as char) == b[..Width(b)]
  {
    var width, first: int := Width(b), b[0];
    if width == 2 {
      ExtendSplits(first - 0xC0, b[1]);
    } else if width == 3 {
      ExtendSplits(first - 0xE0, b[1]);
      ExtendSplits(Extend(first - 0xE0, b[1]), b[2]);
    } else if width == 4 {
      ExtendSplits(first - 0xF0, b[1]);
      ExtendSplits(Extend(first - 0xF0, b[1]), b[2]);
      ExtendSplits(Extend(Extend(first - 0xF0, b[1]), b[2]), b[3]);
    }
  }

  /** Bytes that are read as a string are the bytes of that string: there is no second spelling. */
  lemma {:induction false} EncodeDecode(b: seq<u8>)
    ensures Decode(b).Some? ==> Encode(Decode(b).value) == b
    decreases |b|
  {
    if b != [] && Decode(b).Some? {
      var width := Width(b);
      EncodeDecode(b[width..]);
      ReadCharIsEncoded(b);
      var rest := Decode(b[width..]).value;
      EncodeCons(RawValue(b, width) as char, rest, b[..width], b[width..]);
    }
  }

  predicate IsAscii(s: string)
  {
    forall i :: 0 <= i < |s| ==> s[i] as int < 0x80
  }

  /** An ASCII string is spelled by its own character codes. */
  lemma {:induction false} AsciiBytes(s: string)
    requires IsAscii(s)
    ensures |Encode(s)| == |s| && forall i :: 0 <= i < |s| ==> Encode(s)[i] == s[i] as int
  {
    if s != "" {
      AsciiBytes(s[1..]);
    }
  }
}
