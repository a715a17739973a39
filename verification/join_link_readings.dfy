/** Exactly which payload a text is read as, and what every other text is refused for. */
module JoinLinkReadings {
  import opened Basics
  import opened Digits
  import opened Query
  import opened Histories
  import opened JoinLinks
  import opened JoinLinkAcceptance
  import opened JoinLinkQueries
  import Text

  // ----- Privacy modes -----

  /** The spellings of the mode `zk`, which also goes by an older name with dashes or underscores. */
  const ZK_WORDS: set<string> := {"zk", "zk_roster_v1", "zk-roster-v1", "zk_roster-v1", "zk-roster_v1"}

  lemma RosterSpellings(word: string, normal: string)
    requires |normal| == |word|
             && forall i :: 0 <= i < |word| ==> normal[i] == if word[i] == '-' then '_' else word[i]
    ensures normal == "zk_roster_v1" <==> word in ZK_WORDS - {"zk"}
  {
    var older: string := "zk_roster_v1";
    if normal == older {
      assert forall i :: 0 <= i < 12 && i != 2 && i != 9 ==> word[i] == older[i];
      assert older[2] == '_' && older[9] == '_';
      assert word == older[2 := word[2]][9 := word[9]];
      assert older[2 := '-'][9 := '-'] == "zk-roster-v1" && older[2 := '_'][9 := '-'] == "zk_roster-v1";
      assert older[2 := '-'][9 := '_'] == "zk-roster_v1" && older[2 := '_'][9 := '_'] == older;
    }
  }

  lemma PlainSpellings(word: string, normal: string)
    requires |normal| == |word|
             && forall i :: 0 <= i < |word| ==> normal[i] == if word[i] == '-' then '_' else word[i]
    ensures normal == "zk" <==> word == "zk"
    ensures normal == "transparent" <==> word == "transparent"
  {
    assert normal == "zk" || normal == "transparent" ==> normal == word;
    assert word == "zk" || word == "transparent" ==> normal == word;
  }

  function ModeWord(raw: string): string
  {
    Text.AsciiLower(Text.Trim(raw))
  }

  /** A mode may be spelled in either case, with white space around it, and `zk` under its older name. */
  lemma ModeExactly(raw: string)
    ensures IsPrivacyMode(raw) <==> ModeWord(raw) == "transparent" || ModeWord(raw) in ZK_WORDS
    ensures IsPrivacyMode(raw) ==> KeptMode(raw) == if ModeWord(raw) in ZK_WORDS then "zk" else "transparent"
  {
    RosterSpellings(ModeWord(raw), NormalMode(raw));
    PlainSpellings(ModeWord(raw), NormalMode(raw));
    assert |"transparent"| != |"zk"| && |"transparent"| != |"zk_roster_v1"|;
  }

  // ----- Payloads -----

  /** What a text becomes in the payload. */
  function KeptText(field: TextField, raw: string): string
  {
    match field
    case KaigiPrivacyMode => if ModeWord(raw) in ZK_WORDS then "zk" else "transparent"
    case Nonce => NormalizeHexArg(raw)
    case Signature => NormalizeHexArg(raw)
    case _ => raw
  }

  /** What a payload lacks, the first that applies. */
  function Shortcoming<A>(draft: Draft<A>): Option<LinkError>
  {
    if KaigiDomain in draft.texts && KaigiCallName !in draft.texts then Some(HalfCallMetadata)
    else if KaigiCallName in draft.texts && KaigiDomain !in draft.texts then Some(HalfCallMetadata)
    else if KaigiPrivacyMode in draft.texts && ModeWord(draft.texts[KaigiPrivacyMode]) !in ZK_WORDS + {"transparent"}
    then Some(BadPrivacyMode)
    else if draft.relay.None? then Some(MissingRelay)
    else if draft.channel.None? then Some(MissingChannel)
    else None
  }

  /** A payload holds what the parser's variables hold, mode, nonce and signature in normal form. */
  predicate Fills<A(==)>(draft: Draft<A>, link: JoinLink<A>)
  {
    && draft.relay == Some(link.relay) && draft.channel == Some(link.channel)
    && link.version == draft.version && link.expiresAtMs == draft.expiresAtMs
    && link.authenticated == draft.authenticated && link.insecure == draft.insecure
    && link.texts.Keys == draft.texts.Keys
    && forall field <- link.texts :: link.texts[field] == KeptText(field, draft.texts[field])
  }

  lemma FinishExactly<A>(draft: Draft<A>)
    ensures Shortcoming(draft).Some? ==> Finish(draft) == Err(Shortcoming(draft).value)
    ensures Shortcoming(draft).None? ==> Finish(draft).Ok? && Fills(draft, Finish(draft).value)
  {
    if KaigiPrivacyMode in draft.texts {
      ModeExactly(draft.texts[KaigiPrivacyMode]);
    }
    if Shortcoming(draft).None? {
      var texts := NormalTexts(draft.texts);
      forall field | field in texts ensures texts[field] == KeptText(field, draft.texts[field]) {
      }
    }
  }

  lemma FillsIsUnique<A>(draft: Draft<A>, link: JoinLink<A>, other: JoinLink<A>)
    requires Fills(draft, link) && Fills(draft, other)
    ensures link == other
  {
  }

  // ----- Texts -----

  /** A text is a link: behind the scheme, in either case, comes the query. White space around it does not count. */
  predicate IsLinkText(text: string, scheme: string, query: string)
  {
    Text.Trim(text) == scheme + ['?'] + query && '?' !in scheme && Text.AsciiLower(scheme) == "kaigi://join"
  }

  /** What the parser's variables hold for keys without a value. */
  function Unset<A>(): Draft<A>
  {
    Draft(1, None, None, false, false, map[], None)
  }

  /** A query is free of faults, and the parser's variables hold the last value it gives for each key. */
  ghost predicate Says<A>(env: Env<A>, query: string, draft: Draft<A>)
  {
    var pieces := Split(query, '&');
    && FirstOf(Faults(env, pieces)).None?
    && Amends(env, Unset(), (key: Key) => LastOf(Givens(pieces, key)), draft)
  }

  lemma HexIsInjective(a: seq<u8>, b: seq<u8>)
    requires HexEncode(a) == HexEncode(b)
    ensures a == b
  {
    HexRoundTrip(a);
    HexRoundTrip(b);
  }

  lemma AmendsIsUnique<A>(env: Env<A>, before: Draft<A>, given: Key -> Option<string>, a: Draft<A>, b: Draft<A>)
    requires Amends(env, before, given, a) && Amends(env, before, given, b)
    ensures a == b
  {
    if given(ChannelKey).Some? {
      HexIsInjective(a.channel.value, b.channel.value);
    }
    forall field: TextField ensures TextAt(a.texts, field) == TextAt(b.texts, field) {
    }
    SameTexts(a.texts, b.texts);
  }

  lemma SameTexts(a: map<TextField, string>, b: map<TextField, string>)
    requires forall field :: TextAt(a, field) == TextAt(b, field)
    ensures a == b
  {
    forall field: TextField ensures field in a <==> field in b {
      assert TextAt(a, field) == TextAt(b, field);
    }
    forall field | field in a ensures a[field] == b[field] {
      assert TextAt(a, field) == TextAt(b, field);
    }
  }

  lemma SaysExactly<A>(env: Env<A>, query: string, draft: Draft<A>)
    ensures AcceptPieces(env, EmptyDraft(), Split(query, '&')) == Ok(draft) <==> Says(env, query, draft)
    ensures AcceptPieces(env, EmptyDraft(), Split(query, '&')).Err? <==>
            FirstOf(Faults(env, Split(query, '&'))).Some?
    ensures FirstOf(Faults(env, Split(query, '&'))).Some? ==>
              AcceptPieces(env, EmptyDraft(), Split(query, '&'))
              == Err(FirstOf(Faults(env, Split(query, '&'))).value)
  {
    var pieces := Split(query, '&');
    PiecesAmend(env, EmptyDraft(), pieces);
    var read := AcceptPieces(env, EmptyDraft(), pieces);
    if read.Ok? && Says(env, query, draft) {
      AmendsIsUnique(env, Unset(), (key: Key) => LastOf(Givens(pieces, key)), read.value, draft);
    }
  }

  lemma LinkTextIsCut(text: string, scheme: string, query: string)
    requires Text.Trim(text) == scheme + ['?'] + query && '?' !in scheme
    ensures SplitOnce(Text.Trim(text), '?') == Some((scheme, query))
  {
    SplitAtSeparator(scheme, query, '?');
  }

  /**
   What a text is refused for: a missing query, another scheme, the first fault of the query, what the payload lacks, or
   the check of its version that fails.
   */
  lemma RefusedExactly<A>(env: Env<A>, text: string, scheme: string, query: string, nowMs: u64)
    ensures '?' !in Text.Trim(text) ==> Parsed(env, text, nowMs) == Err(MissingQuery)
    ensures && Text.Trim(text) == scheme + ['?'] + query && '?' !in scheme
            && Text.AsciiLower(scheme) != "kaigi://join"
            ==> Parsed(env, text, nowMs) == Err(UnsupportedScheme)
    ensures IsLinkText(text, scheme, query) && FirstOf(Faults(env, Split(query, '&'))).Some? ==>
              Parsed(env, text, nowMs) == Err(FirstOf(Faults(env, Split(query, '&'))).value)
  {
    SplitOnceExactly(Text.Trim(text), '?');
    if Text.Trim(text) == scheme + ['?'] + query && '?' !in scheme {
      LinkTextIsCut(text, scheme, query);
    }
    SaysExactly(env, query, EmptyDraft());
  }

  lemma IncompleteIsRefused<A>(env: Env<A>, text: string, scheme: string, query: string, draft: Draft<A>,
                               link: JoinLink<A>, nowMs: u64)
    requires IsLinkText(text, scheme, query) && Says(env, query, draft)
    ensures Shortcoming(draft).Some? ==> Parsed(env, text, nowMs) == Err(Shortcoming(draft).value)
    ensures Shortcoming(draft).None? && Fills(draft, link) ==>
              Parsed(env, text, nowMs) == match SecurityError(env, link, nowMs)
                                          case Some(error) => Err(error)
                                          case None => Ok(link)
  {
    LinkTextIsCut(text, scheme, query);
    SaysExactly(env, query, draft);
    FinishExactly(draft);
    if Shortcoming(draft).None? && Fills(draft, link) {
      FillsIsUnique(draft, Finish(draft).value, link);
    }
  }

  /** A text is read as a payload. */
  ghost predicate ReadsTo<A>(env: Env<A>, text: string, scheme: string, query: string, draft: Draft<A>,
                             link: JoinLink<A>)
  {
    && IsLinkText(text, scheme, query) && Says(env, query, draft)
    && Shortcoming(draft).None? && Fills(draft, link)
  }

  /**
   A text is accepted as a payload exactly if it is a link whose query is free of faults, gives as last values what the
   payload holds, lacks nothing, and passes the checks of its version.
   */
  lemma ReadExactly<A(!new)>(env: Env<A>, text: string, link: JoinLink<A>, nowMs: u64)
    ensures Parsed(env, text, nowMs) == Ok(link) <==>
            && Secured(env, link, nowMs)
            && exists scheme, query, draft :: ReadsTo(env, text, scheme, query, draft, link)
  {
    SecuredExactly(env, link, nowMs);
    if scheme, query, draft :| ReadsTo(env, text, scheme, query, draft, link) {
      IncompleteIsRefused(env, text, scheme, query, draft, link, nowMs);
    }
    if Parsed(env, text, nowMs) == Ok(link) {
      AcceptedReads(env, text, link, nowMs);
    }
  }

  lemma AcceptedReads<A(!new)>(env: Env<A>, text: string, link: JoinLink<A>, nowMs: u64)
    requires Parsed(env, text, nowMs) == Ok(link)
    ensures SecurityError(env, link, nowMs).None?
    ensures exists scheme, query, draft :: ReadsTo(env, text, scheme, query, draft, link)
  {
    SplitOnceExactly(Text.Trim(text), '?');
    var (scheme, query) := SplitOnce(Text.Trim(text), '?').value;
    var read := AcceptPieces(env, EmptyDraft(), Split(query, '&'));
    var draft := read.value;
    SaysExactly(env, query, draft);
    FinishExactly(draft);
    assert ReadsTo(env, text, scheme, query, draft, link);
  }
}
