/**
 What encoded text may look like: every spelling of a text in pieces is read as that text, and nothing else is read.
 */
module PercentSpellings {
  import opened Basics
  import opened Digits
  import opened Percent

  /** A byte may be written as itself, a space as a plus sign, and any byte as an escape with digits of either case. */
  datatype Piece = Literal(b: u8) | Plus | Escaped(hi: u8, lo: u8)

  predicate IsPiece(piece: Piece)
  {
    match piece
    case Literal(b) => b != '%' as int && b != '+' as int
    case Plus => true
    case Escaped(hi, lo) => HexNibble(hi).Some? && HexNibble(lo).Some?
  }

  function Spelling(piece: Piece): seq<u8>
  {
    match piece
    case Literal(b) => [b]
    case Plus => ['+' as int]
    case Escaped(hi, lo) => ['%' as int, hi, lo]
  }

  function Meaning(piece: Piece): u8
    requires IsPiece(piece)
  {
    match piece
    case Literal(b) => b
    case Plus => ' ' as int
    case Escaped(hi, lo) => HexNibble(hi).value * 16 + HexNibble(lo).value
  }

  function Spellings(pieces: seq<Piece>): seq<u8>
  {
    if pieces == [] then [] else Spelling(pieces[0]) + Spellings(pieces[1..])
  }

  function Meanings(pieces: seq<Piece>): (bytes: seq<u8>)
    requires forall i :: 0 <= i < |pieces| ==> IsPiece(pieces[i])
    ensures |bytes| == |pieces| && forall i :: 0 <= i < |pieces| ==> bytes[i] == Meaning(pieces[i])
  {
    seq(|pieces|, i requires 0 <= i < |pieces| => Meaning(pieces[i]))
  }

  /** However a text is spelled in pieces, it is read as what the pieces mean. */
  lemma {:induction false} SpellingsAreRead(pieces: seq<Piece>)
    requires forall i :: 0 <= i < |pieces| ==> IsPiece(pieces[i])
    ensures Unescape(Spellings(pieces)) == Ok(Meanings(pieces))
  {
    if pieces != [] {
      var rest := pieces[1..];
      var bytes := Spellings(pieces);
      SpellingsAreRead(rest);
      assert bytes[|Spelling(pieces[0])|..] == Spellings(rest);
      assert Meanings(pieces) == [Meaning(pieces[0])] + Meanings(rest);
    }
  }

  /** Whatever is read can be spelled in pieces. */
  lemma {:induction false} ReadIsSpelled(bytes: seq<u8>) returns (pieces: seq<Piece>)
    requires Unescape(bytes).Ok?
    ensures forall i :: 0 <= i < |pieces| ==> IsPiece(pieces[i])
    ensures Spellings(pieces) == bytes && Unescape(bytes) == Ok(Meanings(pieces))
    decreases |bytes|
  {
    if bytes == [] {
      pieces := [];
    } else {
      var first := if bytes[0] == '%' as int then Escaped(bytes[1], bytes[2])
                   else if bytes[0] == '+' as int then Plus else Literal(bytes[0]);
      var n := |Spelling(first)|;
      var rest := ReadIsSpelled(bytes[n..]);
      pieces := [first] + rest;
      assert pieces[1..] == rest && bytes == Spelling(first) + bytes[n..];
      SpellingsAreRead(pieces);
    }
  }
}
