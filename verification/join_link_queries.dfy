/** What a query says, key by key: its first fault, or the last value it gives for each key. */
module JoinLinkQueries {
  import opened Basics
  import opened Digits
  import opened Percent
  import opened Query
  import opened JoinLinks
  import opened JoinLinkAcceptance
  import opened Histories
  import Text

  // ----- Pairs -----

  /** A piece is a key, an equals sign and a value, cut at the first equals sign; or a key alone. */
  predicate IsPair(piece: string, key: string, value: string)
  {
    '=' !in key && (piece == key + ['='] + value || (piece == key && value == ""))
  }

  lemma RawPairExactly(piece: string, key: string, value: string)
    ensures RawPair(piece) == (key, value) <==> IsPair(piece, key, value)
  {
    SplitOnceExactly(piece, '=');
    if IsPair(piece, key, value) && piece == key + ['='] + value {
      SplitAtSeparator(key, value, '=');
    }
  }

  /** A pair is what its two halves decode to. */
  lemma PairExactly(piece: string, key: string, value: string)
    ensures Pair(piece) == Ok((key, value)) <==>
            exists k, v :: IsPair(piece, k, v) && PctDecoded(k) == Ok(key) && PctDecoded(v) == Ok(value)
  {
    var (rawKey, rawValue) := RawPair(piece);
    RawPairExactly(piece, rawKey, rawValue);
    if k, v :| IsPair(piece, k, v) && PctDecoded(k) == Ok(key) && PctDecoded(v) == Ok(value) {
      RawPairExactly(piece, k, v);
    }
  }

  /** A pair that cannot be decoded is refused for its key, or else for its value. */
  lemma PairRefused(piece: string, key: string, value: string)
    requires IsPair(piece, key, value)
    ensures PctDecoded(key).Err? ==> Pair(piece) == Err(BadPercent(PctDecoded(key).error))
    ensures PctDecoded(key).Ok? && PctDecoded(value).Err? ==> Pair(piece) == Err(BadPercent(PctDecoded(value).error))
  {
    RawPairExactly(piece, key, value);
  }

  // ----- Faults -----

  /** The error a value of a key is refused with, if it is. */
  function ValueFault<A>(env: Env<A>, key: Key, value: string): Option<LinkError>
  {
    match key
    case VersionKey => if ParseUnsigned(value, 255).Some? then None else Some(BadVersion)
    case RelayKey => if env.parseAddr(value).Some? then None else Some(BadRelay)
    case ChannelKey => if HexBehind(Text.Trim(value), "", 64) then None else Some(BadChannel)
    case AuthenticatedKey => if IsFlag(value) then None else Some(BadFlag)
    case InsecureKey => if IsFlag(value) then None else Some(BadFlag)
    case ExpiryKey => if value == "" || ParseUnsigned(value, U64_MAX).Some? then None else Some(BadExpiry)
    case TextKey(_) => None
  }

  predicate IsFlag(value: string)
  {
    Text.AsciiLower(Text.Trim(value)) in TRUE_WORDS + FALSE_WORDS
  }

  /** The error a piece is refused with, whatever stands before it; empty pieces and unknown keys are passed over. */
  function Fault<A>(env: Env<A>, piece: string): Option<LinkError>
  {
    if piece == "" then None
    else match Pair(piece)
         case Err(error) => Some(error)
         case Ok((keyText, value)) =>
           if KeyOf(keyText).None? then None else ValueFault(env, KeyOf(keyText).value, value)
  }

  function Faults<A>(env: Env<A>, pieces: seq<string>): (faults: seq<Option<LinkError>>)
    ensures |faults| == |pieces|
    ensures forall i :: 0 <= i < |pieces| ==> faults[i] == Fault(env, pieces[i])
  {
    seq(|pieces|, i requires 0 <= i < |pieces| => Fault(env, pieces[i]))
  }

  // ----- Values -----

  /** Empty values of the expiry and of the texts do not count. */
  predicate Counts(key: Key, value: string)
  {
    value != "" || !(key.ExpiryKey? || key.TextKey?)
  }

  /** The value a piece gives for a key, if it gives one. */
  function Given(piece: string, key: Key): Option<string>
  {
    if piece != "" && Pair(piece).Ok? && Pair(piece).value.0 == KeyText(key) && Counts(key, Pair(piece).value.1)
    then Some(Pair(piece).value.1) else None
  }

  /** The values some pieces give for a key. */
  function Givens(pieces: seq<string>, key: Key): (givens: seq<Option<string>>)
    ensures |givens| == |pieces|
    ensures forall i :: 0 <= i < |pieces| ==> givens[i] == Given(pieces[i], key)
  {
    seq(|pieces|, i requires 0 <= i < |pieces| => Given(pieces[i], key))
  }

  // ----- What the parser's variables hold -----

  function TextAt(texts: map<TextField, string>, field: TextField): Option<string>
  {
    if field in texts then Some(texts[field]) else None
  }

  /** The parser's variables after some values: those given for a key replace what was there. */
  ghost predicate Amends<A>(env: Env<A>, before: Draft<A>, given: Key -> Option<string>, after: Draft<A>)
  {
    && (match given(VersionKey)
        case None => after.version == before.version
        case Some(value) => ParseUnsigned(value, 255) == Some(after.version))
    && (match given(RelayKey)
        case None => after.relay == before.relay
        case Some(value) => after.relay.Some? && env.parseAddr(value) == after.relay)
    && (match given(ChannelKey)
        case None => after.channel == before.channel
        case Some(value) => after.channel.Some? && HexEncode(after.channel.value) == Text.AsciiLower(Text.Trim(value)))
    && after.authenticated == FlagOr(given(AuthenticatedKey), before.authenticated)
    && after.insecure == FlagOr(given(InsecureKey), before.insecure)
    && (match given(ExpiryKey)
        case None => after.expiresAtMs == before.expiresAtMs
        case Some(value) => after.expiresAtMs.Some? && ParseUnsigned(value, U64_MAX) == after.expiresAtMs)
    && (forall field :: TextAt(after.texts, field)
                        == var value := given(TextKey(field));
                           if value.Some? then value else TextAt(before.texts, field))
  }

  function FlagOr(given: Option<string>, before: bool): bool
  {
    if given.Some? then Text.AsciiLower(Text.Trim(given.value)) in TRUE_WORDS else before
  }

  lemma AmendsTwice<A>(env: Env<A>, first: Draft<A>, second: Draft<A>, third: Draft<A>, given: Key -> Option<string>,
                       later: Key -> Option<string>, both: Key -> Option<string>)
    requires Amends(env, first, given, second) && Amends(env, second, later, third)
    requires forall key :: both(key) == if later(key).Some? then later(key) else given(key)
    ensures Amends(env, first, both, third)
  {
  }

  lemma AmendsLikewise<A>(env: Env<A>, before: Draft<A>, given: Key -> Option<string>, same: Key -> Option<string>,
                          after: Draft<A>)
    requires Amends(env, before, given, after) && forall key :: same(key) == given(key)
    ensures Amends(env, before, same, after)
  {
  }

  // ----- Keys -----

  lemma {:induction false} DecodedIsLower(s: string)
    ensures HexDecode(s).Some? ==> HexEncode(HexDecode(s).value) == Text.AsciiLower(s)
    decreases |s|
  {
    if |s| >= 2 && HexDecode(s).Some? {
      var rest := s[2..];
      DecodedIsLower(rest);
      var bytes := HexDecode(s).value;
      assert bytes[1..] == HexDecode(rest).value;
      NibblesAreLower(s[0], s[1], bytes[0]);
      assert Text.AsciiLower(s) == [Text.AsciiLowerChar(s[0]), Text.AsciiLowerChar(s[1])] + Text.AsciiLower(rest);
    }
  }

  lemma NibblesAreLower(hi: char, lo: char, b: u8)
    requires HexNibble(hi as int).Some? && HexNibble(lo as int).Some?
    requires b == HexNibble(hi as int).value * 16 + HexNibble(lo as int).value
    ensures var n: int := b;
            HexDigit(n / 16) == Text.AsciiLowerChar(hi) && HexDigit(n % 16) == Text.AsciiLowerChar(lo)
  {
    var n: int := b;
    assert n / 16 == HexNibble(hi as int).value && n % 16 == HexNibble(lo as int).value;
  }

  /** A channel is 64 hexadecimal digits with any white space around them. */
  lemma ChannelExactly(value: string)
    ensures DecodeHex32(value).Some? <==> HexBehind(Text.Trim(value), "", 64)
    ensures DecodeHex32(value).Some? ==> HexEncode(DecodeHex32(value).value) == Text.AsciiLower(Text.Trim(value))
  {
    var s := Text.Trim(value);
    DecodableExactly(s);
    DecodedIsLower(s);
    if HexDecode(s).Some? {
      HexRoundTrip(HexDecode(s).value);
    }
  }

  lemma FlagExactly(value: string)
    ensures ParseBoolish(value).Some? <==> IsFlag(value)
    ensures ParseBoolish(value).Some? ==> ParseBoolish(value).value == FlagOr(Some(value), false)
  {
    FlagWords(value, Text.AsciiLower(Text.Trim(value)));
  }

  function Only(key: Key, value: string): Key -> Option<string>
  {
    (k: Key) => if k == key && Counts(key, value) then Some(value) else None
  }

  lemma KeyAmends<A>(env: Env<A>, draft: Draft<A>, key: Key, value: string)
    ensures var next, fault := AcceptKey(env, draft, key, value), ValueFault(env, key, value);
            if fault.Some? then next == Err(fault.value)
            else next.Ok? && Amends(env, draft, Only(key, value), next.value)
  {
    if key.ChannelKey? {
      ChannelExactly(value);
    } else if key.AuthenticatedKey? || key.InsecureKey? {
      FlagExactly(value);
    }
  }

  lemma PieceAmends<A>(env: Env<A>, draft: Draft<A>, piece: string)
    requires piece != ""
    ensures var next, fault := AcceptPiece(env, draft, piece), Fault(env, piece);
            if fault.Some? then next == Err(fault.value)
            else next.Ok? && Amends(env, draft, (key: Key) => Given(piece, key), next.value)
  {
    var pair := Pair(piece);
    if pair.Ok? {
      var (keyText, value) := pair.value;
      var known := KeyOf(keyText);
      if known.Some? {
        KeysAreDistinct(known.value);
        KeyAmends(env, draft, known.value, value);
        forall key: Key ensures Given(piece, key) == Only(known.value, value)(key) {
          KeysAreDistinct(key);
        }
        if Fault(env, piece).None? {
          var next := AcceptPiece(env, draft, piece).value;
          AmendsLikewise(env, draft, Only(known.value, value), (key: Key) => Given(piece, key), next);
        }
      } else {
        forall key: Key ensures Given(piece, key).None? {
          KeysAreDistinct(key);
        }
      }
    }
  }

  /** Reading a query comes to this: the first fault, if there is one; otherwise the last value given for each key. */
  ghost predicate ReadsAs<A>(env: Env<A>, draft: Draft<A>, pieces: seq<string>, read: Result<Draft<A>, LinkError>)
  {
    var fault := FirstOf(Faults(env, pieces));
    if fault.Some? then read == Err(fault.value)
    else read.Ok? && Amends(env, draft, (key: Key) => LastOf(Givens(pieces, key)), read.value)
  }

  lemma {:induction false} PiecesAmend<A>(env: Env<A>, draft: Draft<A>, pieces: seq<string>)
    ensures ReadsAs(env, draft, pieces, AcceptPieces(env, draft, pieces))
    decreases |pieces|
  {
    if pieces != [] {
      var rest := pieces[1..];
      if pieces[0] == "" {
        PiecesAmend(env, draft, rest);
        EmptyPieceReads(env, draft, pieces);
      } else {
        PieceAmends(env, draft, pieces[0]);
        if Fault(env, pieces[0]).None? {
          var next := AcceptPiece(env, draft, pieces[0]).value;
          PiecesAmend(env, next, rest);
          PieceReads(env, draft, next, pieces);
        }
      }
    }
  }

  lemma EmptyPieceReads<A>(env: Env<A>, draft: Draft<A>, pieces: seq<string>)
    requires pieces != [] && pieces[0] == ""
    requires ReadsAs(env, draft, pieces[1..], AcceptPieces(env, draft, pieces[1..]))
    ensures ReadsAs(env, draft, pieces, AcceptPieces(env, draft, pieces))
  {
    assert Faults(env, pieces)[1..] == Faults(env, pieces[1..]);
    if AcceptPieces(env, draft, pieces[1..]).Ok? {
      PassedOver(env, draft, pieces);
    }
  }

  lemma PieceReads<A>(env: Env<A>, draft: Draft<A>, next: Draft<A>, pieces: seq<string>)
    requires pieces != [] && Fault(env, pieces[0]).None?
    requires Amends(env, draft, (key: Key) => Given(pieces[0], key), next)
    requires ReadsAs(env, next, pieces[1..], AcceptPieces(env, next, pieces[1..]))
    ensures ReadsAs(env, draft, pieces, AcceptPieces(env, next, pieces[1..]))
  {
    assert Faults(env, pieces)[1..] == Faults(env, pieces[1..]);
    if AcceptPieces(env, next, pieces[1..]).Ok? {
      Continued(env, draft, next, pieces);
    }
  }

  lemma PassedOver<A>(env: Env<A>, draft: Draft<A>, pieces: seq<string>)
    requires pieces != [] && pieces[0] == "" && AcceptPieces(env, draft, pieces[1..]).Ok?
    requires Amends(env, draft, (key: Key) => LastOf(Givens(pieces[1..], key)),
                    AcceptPieces(env, draft, pieces[1..]).value)
    ensures Amends(env, draft, (key: Key) => LastOf(Givens(pieces, key)), AcceptPieces(env, draft, pieces).value)
  {
    forall key: Key ensures LastOf(Givens(pieces, key)) == LastOf(Givens(pieces[1..], key)) {
      assert Givens(pieces, key)[1..] == Givens(pieces[1..], key);
    }
    AmendsLikewise(env, draft, (key: Key) => LastOf(Givens(pieces[1..], key)),
                   (key: Key) => LastOf(Givens(pieces, key)), AcceptPieces(env, draft, pieces).value);
  }

  lemma Continued<A>(env: Env<A>, draft: Draft<A>, next: Draft<A>, pieces: seq<string>)
    requires pieces != [] && AcceptPieces(env, next, pieces[1..]).Ok?
    requires Amends(env, draft, (key: Key) => Given(pieces[0], key), next)
    requires Amends(env, next, (key: Key) => LastOf(Givens(pieces[1..], key)),
                    AcceptPieces(env, next, pieces[1..]).value)
    ensures Amends(env, draft, (key: Key) => LastOf(Givens(pieces, key)),
                   AcceptPieces(env, next, pieces[1..]).value)
  {
    forall key: Key ensures LastOf(Givens(pieces, key)) == var rest := LastOf(Givens(pieces[1..], key));
                                                           if rest.Some? then rest else Given(pieces[0], key) {
      assert Givens(pieces, key)[1..] == Givens(pieces[1..], key);
    }
    AmendsTwice(env, draft, next, AcceptPieces(env, next, pieces[1..]).value, (key: Key) => Given(pieces[0], key),
                (key: Key) => LastOf(Givens(pieces[1..], key)), (key: Key) => LastOf(Givens(pieces, key)));
  }
}
