/** What every accepted link is, whatever text it was read from, and when printing it again changes nothing. */
module JoinLinkAcceptance {
  import opened Basics
  import opened Digits
  import opened Query
  import opened Percent
  import opened JoinLinks
  import opened JoinLinkLaws
  import Text

  // ----- The parser's variables -----

  ghost predicate Tidy<A>(draft: Draft<A>)
  {
    && (draft.channel.Some? ==> |draft.channel.value| == 32)
    && (forall field <- draft.texts :: draft.texts[field] != "")
  }

  lemma KeyKeepsTidy<A>(env: Env<A>, draft: Draft<A>, key: Key, value: string)
    requires Tidy(draft)
    ensures var next := AcceptKey(env, draft, key, value); next.Ok? ==> Tidy(next.value)
  {
  }

  lemma PieceKeepsTidy<A>(env: Env<A>, draft: Draft<A>, piece: string)
    requires Tidy(draft)
    ensures var next := AcceptPiece(env, draft, piece); next.Ok? ==> Tidy(next.value)
  {
    var pair := Pair(piece);
    if pair.Ok? && KeyOf(pair.value.0).Some? {
      KeyKeepsTidy(env, draft, KeyOf(pair.value.0).value, pair.value.1);
    }
  }

  lemma {:induction false} PiecesKeepTidy<A>(env: Env<A>, draft: Draft<A>, pieces: seq<string>)
    requires Tidy(draft)
    ensures var next := AcceptPieces(env, draft, pieces); next.Ok? ==> Tidy(next.value)
    decreases |pieces|
  {
    if pieces != [] {
      if pieces[0] == "" {
        PiecesKeepTidy(env, draft, pieces[1..]);
      } else {
        PieceKeepsTidy(env, draft, pieces[0]);
        var next := AcceptPiece(env, draft, pieces[0]);
        if next.Ok? {
          PiecesKeepTidy(env, next.value, pieces[1..]);
        }
      }
    }
  }

  // ----- Flags -----

  const TRUE_WORDS: set<string> := {"1", "true", "yes", "on"}
  const FALSE_WORDS: set<string> := {"0", "false", "no", "off"}

  /** A flag may be spelled by any of four words, in either case and with white space around it. */
  lemma FlagWords(raw: string, word: string)
    requires Text.AsciiLower(Text.Trim(raw)) == word
    ensures ParseBoolish(raw) == Some(true) <==> word in TRUE_WORDS
    ensures ParseBoolish(raw) == Some(false) <==> word in FALSE_WORDS
  {
  }

  // ----- Accepted payloads -----

  /** Text in small letters that is hexadecimal but for one prefix, if any. */
  ghost predicate AlmostHex(s: string)
  {
    s != "" && HexDecode(StripHexPrefix(s)).Some? && Text.AsciiLower(s) == s
  }

  /** Hexadecimal digits of a given number, behind at most one prefix. */
  ghost predicate IsHexText(s: string, digits: nat)
  {
    exists prefix: string :: prefix in ["", "0x", "0X"] && HexBehind(s, prefix, digits)
  }

  predicate HexBehind(s: string, prefix: string, digits: nat)
  {
    && |s| == |prefix| + digits && prefix <= s
    && forall i :: |prefix| <= i < |s| ==> IsHexDigit(s[i])
  }

  /**
   The checks of a signed link: an expiry ahead by at most a week, a nonce of 16 bytes, and a signature of 32 bytes that
   is the one of the link's own fields.
   */
  ghost predicate SignedProperly<A>(env: Env<A>, link: JoinLink<A>, nowMs: u64)
  {
    && link.expiresAtMs.Some? && nowMs < link.expiresAtMs.value <= nowMs + 604_800_000
    && Nonce in link.texts && IsHexText(link.texts[Nonce], 32)
    && Signature in link.texts && IsHexText(link.texts[Signature], 64)
    && NormalizeHexArg(link.texts[Signature]) == SignatureOf(env, link, link.expiresAtMs.value, link.texts[Nonce])
  }

  /**
   The checks of a version: a first-version link has none of the security fields, a second-version link is signed
   properly.
   */
  ghost predicate Secured<A>(env: Env<A>, link: JoinLink<A>, nowMs: u64)
  {
    || (link.version == 1 && link.expiresAtMs.None? && Nonce !in link.texts && Signature !in link.texts)
    || (link.version == 2 && SignedProperly(env, link, nowMs))
  }

  /** What a payload must be to be accepted at a time. */
  ghost predicate Acceptable<A>(env: Env<A>, link: JoinLink<A>, nowMs: u64)
  {
    && |link.channel| == 32
    && Printable(link.texts)
    && Secured(env, link, nowMs)
    && (Nonce in link.texts ==> Text.AsciiLower(link.texts[Nonce]) == link.texts[Nonce])
    && (Signature in link.texts ==> Text.AsciiLower(link.texts[Signature]) == link.texts[Signature])
  }

  lemma {:induction false} DecodableExactly(s: string)
    ensures HexDecode(s).Some? <==> |s| % 2 == 0 && forall i :: 0 <= i < |s| ==> IsHexDigit(s[i])
    decreases |s|
  {
    if |s| >= 2 {
      var rest := s[2..];
      DecodableExactly(rest);
      assert forall i :: 0 <= i < |rest| ==> rest[i] == s[i + 2];
    }
  }

  /** The length and the decoding that validation looks at are those of hexadecimal text behind at most one prefix. */
  lemma HexTextExactly(s: string, digits: nat)
    requires digits % 2 == 0 && digits > 2
    ensures IsHexText(s, digits) <==> |StripHexPrefix(s)| == digits && HexDecode(StripHexPrefix(s)).Some?
  {
    var rest := StripHexPrefix(s);
    DecodableExactly(rest);
    var prefix := if rest == s then "" else if s[1] == 'x' then "0x" else "0X";
    if |rest| == digits && HexDecode(rest).Some? {
      assert s[|prefix|..] == rest;
      assert HexBehind(s, prefix, digits);
    }
    if other: string :| other in ["", "0x", "0X"] && HexBehind(s, other, digits) {
      if other == "" {
        assert s[1] != 'x' && s[1] != 'X';
      }
      assert rest == s[|other|..];
      assert forall i :: 0 <= i < |rest| ==> rest[i] == s[i + |other|];
    }
  }

  /** What validation looks at, check by check. */
  predicate PassesChecks<A>(env: Env<A>, link: JoinLink<A>, nowMs: u64)
  {
    || (link.version == 1 && link.expiresAtMs.None? && Nonce !in link.texts && Signature !in link.texts)
    || (&& link.version == 2
        && link.expiresAtMs.Some? && nowMs < link.expiresAtMs.value <= nowMs + 604_800_000
        && Nonce in link.texts && |StripHexPrefix(link.texts[Nonce])| == 32
        && HexDecode(StripHexPrefix(link.texts[Nonce])).Some?
        && Signature in link.texts && |StripHexPrefix(link.texts[Signature])| == 64
        && HexDecode(StripHexPrefix(link.texts[Signature])).Some?
        && NormalizeHexArg(link.texts[Signature]) == SignatureOf(env, link, link.expiresAtMs.value, link.texts[Nonce]))
  }

  lemma NoErrorPassesChecks<A>(env: Env<A>, link: JoinLink<A>, nowMs: u64)
    ensures SecurityError(env, link, nowMs).None? <==> PassesChecks(env, link, nowMs)
  {
  }

  /** Validation finds no error exactly if the checks of the link's version hold. */
  lemma SecuredExactly<A>(env: Env<A>, link: JoinLink<A>, nowMs: u64)
    ensures SecurityError(env, link, nowMs).None? <==> Secured(env, link, nowMs)
  {
    NoErrorPassesChecks(env, link, nowMs);
    if Nonce in link.texts {
      HexTextExactly(link.texts[Nonce], 32);
    }
    if Signature in link.texts {
      HexTextExactly(link.texts[Signature], 64);
    }
  }

  lemma NormalizedIsLower(s: string)
    ensures Text.AsciiLower(NormalizeHexArg(s)) == NormalizeHexArg(s)
  {
  }

  lemma KeptModesAreKnown(mode: string)
    requires IsPrivacyMode(mode)
    ensures KeptMode(mode) == "transparent" || KeptMode(mode) == "zk"
  {
  }

  lemma FinishedTextsAreProper<A>(env: Env<A>, draft: Draft<A>, nowMs: u64)
    requires Tidy(draft) && Finish(draft).Ok? && SecurityError(env, Finish(draft).value, nowMs).None?
    ensures var texts := Finish(draft).value.texts;
            && (Nonce in texts ==> Text.AsciiLower(texts[Nonce]) == texts[Nonce] != "")
            && (Signature in texts ==> Text.AsciiLower(texts[Signature]) == texts[Signature] != "")
  {
    var texts := Finish(draft).value.texts;
    NoErrorPassesChecks(env, Finish(draft).value, nowMs);
    if Nonce in texts {
      NormalizedIsLower(draft.texts[Nonce]);
    }
    if Signature in texts {
      NormalizedIsLower(draft.texts[Signature]);
    }
  }

  lemma AdmittedIsAcceptable<A>(env: Env<A>, draft: Draft<A>, nowMs: u64)
    requires Tidy(draft) && Admitted(env, draft, nowMs).Ok?
    ensures Acceptable(env, Admitted(env, draft, nowMs).value, nowMs)
  {
    FinishedTextsAreProper(env, draft, nowMs);
    FinishedTextsArePrintable(draft);
    SecuredExactly(env, Finish(draft).value, nowMs);
  }

  lemma FinishedTextsArePrintable<A>(draft: Draft<A>)
    requires Tidy(draft) && Finish(draft).Ok?
    requires Nonce in draft.texts ==> NormalizeHexArg(draft.texts[Nonce]) != ""
    requires Signature in draft.texts ==> NormalizeHexArg(draft.texts[Signature]) != ""
    ensures Printable(Finish(draft).value.texts)
  {
    var texts := Finish(draft).value.texts;
    assert texts == NormalTexts(draft.texts);
    if KaigiPrivacyMode in draft.texts {
      KeptModesAreKnown(draft.texts[KaigiPrivacyMode]);
    }
    forall field | field in texts ensures texts[field] != "" {
      NormalTextIsNonEmpty(field, draft.texts[field]);
    }
  }

  lemma NormalTextIsNonEmpty(field: TextField, text: string)
    requires text != "" && (field.KaigiPrivacyMode? ==> IsPrivacyMode(text))
    requires field.Nonce? || field.Signature? ==> NormalizeHexArg(text) != ""
    ensures NormalText(field, text) != ""
  {
    if field.KaigiPrivacyMode? {
      KeptModesAreKnown(text);
    }
  }

  /**
   Whatever text a link is accepted from, its channel has 32 bytes, its texts are non-empty, domain and call name come
   together, its privacy mode is in normal form, and it passes every check of its version, signature included.
   */
  lemma AcceptedIsAcceptable<A>(env: Env<A>, text: string, nowMs: u64)
    ensures Parsed(env, text, nowMs).Ok? ==> Acceptable(env, Parsed(env, text, nowMs).value, nowMs)
  {
    var split := SplitOnce(Text.Trim(text), '?');
    if split.Some? {
      var pieces := Split(split.value.1, '&');
      PiecesKeepTidy(env, EmptyDraft(), pieces);
      var read := AcceptPieces(env, EmptyDraft(), pieces);
      if read.Ok? && Admitted(env, read.value, nowMs).Ok? {
        AdmittedIsAcceptable(env, read.value, nowMs);
      }
    }
  }

  // ----- Printing what was accepted -----

  lemma {:induction false} DecodableIsHex(s: string)
    requires HexDecode(s).Some?
    ensures forall i :: 0 <= i < |s| ==> HexNibble(s[i] as int).Some?
    decreases |s|
  {
    if s != "" {
      DecodableIsHex(s[2..]);
      assert forall i :: 2 <= i < |s| ==> s[i] == s[2..][i - 2];
    }
  }

  lemma PlainIsLowerHex(s: string)
    requires AlmostHex(s) && StripHexPrefix(s) == s
    ensures AllLowerHex(s)
  {
    DecodableIsHex(s);
    forall i | 0 <= i < |s| ensures IsLowerHex(s[i]) {
      assert Text.AsciiLower(s)[i] == s[i];
    }
  }

  /** No hexadecimal prefix is left on nonce and signature. */
  predicate Unprefixed(texts: map<TextField, string>)
  {
    && (Nonce in texts ==> StripHexPrefix(texts[Nonce]) == texts[Nonce])
    && (Signature in texts ==> StripHexPrefix(texts[Signature]) == texts[Signature])
  }

  lemma HexIsUnprefixed(s: string)
    requires NormalizeHexArg(s) == s
    ensures StripHexPrefix(s) == s
  {
    Text.TrimIsNoLonger(s);
  }

  /**
   Printing an accepted link and reading it again gives back the same payload, exactly unless its nonce or signature
   came with a doubled hexadecimal prefix, of which one is left.
   */
  lemma AcceptedRendersBack<A(!new)>(env: Env<A>, text: string, nowMs: u64)
    requires Lawful(env) && Parsed(env, text, nowMs).Ok?
    ensures var parsed := Parsed(env, text, nowMs);
            Parsed(env, Rendered(env, parsed.value), nowMs) == parsed <==> Unprefixed(parsed.value.texts)
  {
    AcceptedIsAcceptable(env, text, nowMs);
    var link := Parsed(env, text, nowMs).value;
    if Unprefixed(link.texts) {
      if Nonce in link.texts {
        PlainIsLowerHex(link.texts[Nonce]);
      }
      if Signature in link.texts {
        PlainIsLowerHex(link.texts[Signature]);
      }
      RenderedParses(env, link, nowMs);
    } else {
      PrefixIsLost(env, link, nowMs);
    }
  }

  lemma PrefixIsLost<A(!new)>(env: Env<A>, link: JoinLink<A>, nowMs: u64)
    requires Lawful(env) && |link.channel| == 32 && !Unprefixed(link.texts)
    ensures Parsed(env, Rendered(env, link), nowMs) != Ok(link)
  {
    RenderedIsRead(env, link, nowMs);
    ParamsAreRead(env, link);
    if Finish(DraftOf(link)) == Ok(link) {
      FinishKeepsNormalTexts(link);
      assert false;
    }
  }

  lemma FinishKeepsNormalTexts<A>(link: JoinLink<A>)
    requires Finish(DraftOf(link)) == Ok(link)
    ensures Unprefixed(link.texts)
  {
    var texts := NonEmpty(link.texts);
    assert NormalTexts(texts) == link.texts;
    if Nonce in link.texts {
      HexIsUnprefixed(link.texts[Nonce]);
    }
    if Signature in link.texts {
      HexIsUnprefixed(link.texts[Signature]);
    }
  }

  /** Such links exist: a signed link whose nonce is printed with a doubled prefix is accepted, with one prefix left. */
  lemma DoubledPrefixIsHalved<A(!new)>(env: Env<A>, link: JoinLink<A>, nowMs: u64)
    requires Lawful(env) && |link.channel| == 32 && link.version == VERSION_SIGNED
    requires HexFields(link.texts) && Printable(link.texts) && SecurityError(env, link, nowMs).None?
    ensures Nonce in link.texts
    ensures var doubled := link.(texts := link.texts[Nonce := "0x0x" + link.texts[Nonce]]);
            var halved := link.(texts := link.texts[Nonce := "0x" + link.texts[Nonce]]);
            Parsed(env, Rendered(env, doubled), nowMs) == Ok(halved) && !Unprefixed(halved.texts)
  {
    var nonce := link.texts[Nonce];
    var doubled := link.(texts := link.texts[Nonce := "0x0x" + nonce]);
    RenderedIsRead(env, doubled, nowMs);
    ParamsAreRead(env, doubled);
    DoubledIsFinished(link);
    PrefixedIsValid(env, link, nowMs);
  }

  lemma PrefixIsStripped(s: string)
    requires s != "" && !Text.IsWhitespace(s[|s| - 1]) && Text.AsciiLower(s) == s
    ensures NormalizeHexArg("0x" + s) == s && StripHexPrefix("0x" + s) == s
  {
    var prefixed := "0x" + s;
    assert prefixed[0] == '0' && prefixed[|prefixed| - 1] == s[|s| - 1];
    Text.TrimKeeps(prefixed);
    assert prefixed[2..] == s;
  }

  lemma PrefixKeepsShape(s: string)
    requires s != "" && !Text.IsWhitespace(s[|s| - 1]) && Text.AsciiLower(s) == s
    ensures var once := "0x" + s; !Text.IsWhitespace(once[|once| - 1]) && Text.AsciiLower(once) == once
  {
    var once := "0x" + s;
    assert once[|once| - 1] == s[|s| - 1];
  }

  lemma PrefixesRegroup(s: string)
    ensures "0x0x" + s == "0x" + ("0x" + s)
  {
    assert "0x0x" == "0x" + "0x";
  }

  lemma OnePrefixIsStripped(s: string)
    requires s != "" && AllLowerHex(s)
    ensures NormalizeHexArg("0x" + s) == s && NormalizeHexArg("0x0x" + s) == "0x" + s
    ensures StripHexPrefix("0x" + s) == s
  {
    LowerHexIsLower(s);
    PrefixIsStripped(s);
    PrefixKeepsShape(s);
    PrefixIsStripped("0x" + s);
    PrefixesRegroup(s);
  }

  lemma LowerHexIsLower(s: string)
    requires s != "" && AllLowerHex(s)
    ensures Text.AsciiLower(s) == s && !Text.IsWhitespace(s[|s| - 1])
  {
  }

  lemma DoubledIsFinished<A>(link: JoinLink<A>)
    requires HexFields(link.texts) && Printable(link.texts) && Nonce in link.texts
    ensures Finish(DraftOf(link.(texts := link.texts[Nonce := "0x0x" + link.texts[Nonce]])))
         == Ok(link.(texts := link.texts[Nonce := "0x" + link.texts[Nonce]]))
  {
    var nonce := link.texts[Nonce];
    var twice := link.texts[Nonce := "0x0x" + nonce];
    assert NonEmpty(twice) == twice;
    DoubledIsNormal(link.texts);
    TextsFinish(link, twice);
  }

  lemma DoubledIsNormal(texts: map<TextField, string>)
    requires HexFields(texts) && Printable(texts) && Nonce in texts
    ensures NormalTexts(texts[Nonce := "0x0x" + texts[Nonce]]) == texts[Nonce := "0x" + texts[Nonce]]
  {
    var twice, once := texts[Nonce := "0x0x" + texts[Nonce]], texts[Nonce := "0x" + texts[Nonce]];
    forall field | field in twice ensures NormalText(field, twice[field]) == once[field] {
      if field == Nonce {
        OnePrefixIsStripped(texts[Nonce]);
      } else {
        PrintableTextIsNormal(texts, field);
      }
    }
  }

  lemma TextsFinish<A>(link: JoinLink<A>, texts: map<TextField, string>)
    requires Printable(texts) && NonEmpty(texts) == texts
    ensures Finish(DraftOf(link.(texts := texts))) == Ok(link.(texts := NormalTexts(texts)))
  {
    KnownModes();
  }

  lemma PrefixedIsValid<A>(env: Env<A>, link: JoinLink<A>, nowMs: u64)
    requires link.version == VERSION_SIGNED && link.expiresAtMs.Some? && Nonce in link.texts && Signature in link.texts
    requires link.texts[Nonce] != "" && AllLowerHex(link.texts[Nonce])
    ensures SecurityError(env, link.(texts := link.texts[Nonce := "0x" + link.texts[Nonce]]), nowMs)
            == SecurityError(env, link, nowMs)
  {
    OnePrefixIsStripped(link.texts[Nonce]);
    LowerHexIsNormal(link.texts[Nonce]);
    OtherSpellingIsAsValid(env, link, "0x" + link.texts[Nonce], nowMs);
  }

  lemma OtherSpellingIsAsValid<A>(env: Env<A>, link: JoinLink<A>, nonce: string, nowMs: u64)
    requires link.version == VERSION_SIGNED && link.expiresAtMs.Some? && Nonce in link.texts && Signature in link.texts
    requires NormalizeHexArg(nonce) == NormalizeHexArg(link.texts[Nonce])
             && StripHexPrefix(nonce) == StripHexPrefix(link.texts[Nonce])
    ensures SecurityError(env, link.(texts := link.texts[Nonce := nonce]), nowMs) == SecurityError(env, link, nowMs)
  {
    var other := link.(texts := link.texts[Nonce := nonce]);
    SignatureIgnoresSecurityFields(env, link, other, link.expiresAtMs.value, nonce);
    PrefixIsNotSigned(env, link, link.expiresAtMs.value, nonce, link.texts[Nonce]);
    SameChecks(env, link, other, nowMs);
  }

  lemma PrefixIsNotSigned<A>(env: Env<A>, link: JoinLink<A>, expiresAtMs: u64, a: string, b: string)
    requires NormalizeHexArg(a) == NormalizeHexArg(b)
    ensures SignatureOf(env, link, expiresAtMs, a) == SignatureOf(env, link, expiresAtMs, b)
  {
  }

  lemma SameChecks<A>(env: Env<A>, a: JoinLink<A>, b: JoinLink<A>, nowMs: u64)
    requires a.version == b.version == VERSION_SIGNED && a.expiresAtMs == b.expiresAtMs
    requires Nonce in a.texts && Nonce in b.texts && Signature in a.texts && Signature in b.texts
    requires StripHexPrefix(a.texts[Nonce]) == StripHexPrefix(b.texts[Nonce])
             && a.texts[Signature] == b.texts[Signature]
    requires a.expiresAtMs.Some? ==>
               SignatureOf(env, a, a.expiresAtMs.value, a.texts[Nonce])
               == SignatureOf(env, b, a.expiresAtMs.value, b.texts[Nonce])
    ensures SecurityError(env, a, nowMs) == SecurityError(env, b, nowMs)
  {
  }
}
