/** Printed links parse back: the round trip of join links, its exact condition, and their expiry. */
module JoinLinkLaws {
  import opened Basics
  import opened Digits
  import opened Percent
  import opened Query
  import opened JoinLinks
  import Text

  // ----- From text to parameters -----

  function AcceptParams<A>(env: Env<A>, draft: Draft<A>, params: seq<Param>): Result<Draft<A>, LinkError>
    decreases |params|
  {
    if params == [] then Ok(draft) else
      match AcceptKey(env, draft, params[0].0, params[0].1)
      case Err(error) => Err(error)
      case Ok(next) => AcceptParams(env, next, params[1..])
  }

  lemma NoSeparators(text: string)
    ensures var s := PctEncoded(text); '=' !in s && '&' !in s && '?' !in s
    ensures var s := PctEncoded(text); forall c <- s :: !Text.IsWhitespace(c)
  {
    PercentRoundTrip(text);
  }

  /** A printed parameter is read as its key and its value. */
  lemma PieceIsRead<A>(env: Env<A>, draft: Draft<A>, param: Param)
    ensures Piece(param) != ""
    ensures AcceptPiece(env, draft, Piece(param)) == AcceptKey(env, draft, param.0, param.1)
  {
    var key, value := PctEncoded(KeyText(param.0)), PctEncoded(param.1);
    NoSeparators(KeyText(param.0));
    NoSeparators(param.1);
    SplitAtSeparator(key, value, '=');
    PercentRoundTrip(KeyText(param.0));
    PercentRoundTrip(param.1);
    KeysAreDistinct(param.0);
  }

  lemma RestOfPieces(params: seq<Param>)
    requires params != []
    ensures Pieces(params)[0] == Piece(params[0]) && Pieces(params)[1..] == Pieces(params[1..])
  {
  }

  lemma {:induction false} PiecesAreRead<A>(env: Env<A>, draft: Draft<A>, params: seq<Param>)
    ensures AcceptPieces(env, draft, Pieces(params)) == AcceptParams(env, draft, params)
    decreases |params|
  {
    if params != [] {
      PieceIsRead(env, draft, params[0]);
      RestOfPieces(params);
      var accepted := AcceptKey(env, draft, params[0].0, params[0].1);
      if accepted.Ok? {
        PiecesAreRead(env, accepted.value, params[1..]);
      }
    }
  }

  /** Printed links have no white space at their ends. */
  lemma LinkIsTrim(params: seq<Param>)
    requires params != []
    ensures var s := SCHEME + ['?'] + Join(Pieces(params), '&'); Text.Trim(s) == s
  {
    var pieces := Pieces(params);
    var joined, last := Join(pieces, '&'), pieces[|pieces| - 1];
    LastOfPiece(params[|params| - 1]);
    JoinChars(pieces, '&', ' ');
    assert joined != "" && joined[|joined| - 1] == last[|last| - 1];
    SchemeStarts(joined);
  }

  lemma SchemeStarts(query: string)
    requires query != "" && !Text.IsWhitespace(query[|query| - 1])
    ensures var s := SCHEME + ['?'] + query; Text.Trim(s) == s
  {
    var s := SCHEME + ['?'] + query;
    assert s[0] == SCHEME[0] == 'k' && s[|s| - 1] == query[|query| - 1];
    Text.TrimKeeps(s);
  }

  lemma LastOfPiece(param: Param)
    ensures var piece := Piece(param); piece != "" && !Text.IsWhitespace(piece[|piece| - 1])
  {
    NoSeparators(param.1);
    var piece, value := Piece(param), PctEncoded(param.1);
    assert value != "" ==> piece[|piece| - 1] == value[|value| - 1] && value[|value| - 1] in value;
  }

  lemma SchemeIsRead(query: string)
    ensures SplitOnce(SCHEME + ['?'] + query, '?') == Some((SCHEME, query))
    ensures Text.AsciiLower(SCHEME) == SCHEME
  {
    assert SCHEME == "kaigi://join";
    SplitAtSeparator(SCHEME, query, '?');
  }

  lemma PiecesAreSplit(params: seq<Param>)
    requires params != []
    ensures Split(Join(Pieces(params), '&'), '&') == Pieces(params)
  {
    var pieces := Pieces(params);
    forall i | 0 <= i < |pieces| ensures '&' !in pieces[i] {
      NoSeparators(KeyText(params[i].0));
      NoSeparators(params[i].1);
    }
    SplitJoin(pieces, '&');
  }

  /** A printed link is read as its parameters. */
  lemma RenderedIsRead<A>(env: Env<A>, link: JoinLink<A>, nowMs: u64)
    ensures Parsed(env, Rendered(env, link), nowMs)
         == AdmittedAfter(env, AcceptParams(env, EmptyDraft(), Params(env, link)), nowMs)
  {
    var params := Params(env, link);
    LinkIsTrim(params);
    SchemeIsRead(Join(Pieces(params), '&'));
    PiecesAreSplit(params);
    PiecesAreRead(env, EmptyDraft(), params);
  }

  // ----- From parameters to the draft -----

  lemma {:induction false} AcceptConcat<A>(env: Env<A>, draft: Draft<A>, first: seq<Param>, second: seq<Param>)
    ensures AcceptParams(env, draft, first + second)
         == match AcceptParams(env, draft, first)
            case Err(error) => Err(error)
            case Ok(next) => AcceptParams(env, next, second)
    decreases |first|
  {
    if first == [] {
      assert first + second == second;
    } else {
      assert (first + second)[1..] == first[1..] + second;
      var accepted := AcceptKey(env, draft, first[0].0, first[0].1);
      if accepted.Ok? {
        AcceptConcat(env, accepted.value, first[1..], second);
      }
    }
  }

  /** The texts of a draft after the non-empty texts of some fields are added. */
  function AddTexts(onto: map<TextField, string>, texts: map<TextField, string>, fields: seq<TextField>)
    : map<TextField, string>
    decreases |fields|
  {
    if fields == [] then onto else
      var field := fields[0];
      AddTexts(if field in texts && texts[field] != "" then onto[field := texts[field]] else onto, texts, fields[1..])
  }

  lemma {:induction false} TextParamsAreAdded<A>(env: Env<A>, draft: Draft<A>, texts: map<TextField, string>,
                                                 fields: seq<TextField>)
    ensures AcceptParams(env, draft, TextParams(texts, fields))
            == Ok(draft.(texts := AddTexts(draft.texts, texts, fields)))
    decreases |fields|
  {
    if fields != [] {
      var field := fields[0];
      var next := if field in texts && texts[field] != "" then draft.(texts := draft.texts[field := texts[field]])
                  else draft;
      TextParamsAreAdded(env, next, texts, fields[1..]);
      if field in texts {
        var params := TextParams(texts, fields);
        assert params[0] == (TextKey(field), texts[field]);
        assert params[1..] == TextParams(texts, fields[1..]);
      } else {
        assert [] + TextParams(texts, fields[1..]) == TextParams(texts, fields[1..]);
      }
    }
  }

  lemma {:induction false} AddedText(onto: map<TextField, string>, texts: map<TextField, string>,
                                     fields: seq<TextField>, field: TextField)
    ensures var added := AddTexts(onto, texts, fields);
            (if field in added then Some(added[field]) else None)
            == if field in fields && field in texts && texts[field] != "" then Some(texts[field])
               else if field in onto then Some(onto[field]) else None
    decreases |fields|
  {
    if fields != [] {
      var first := fields[0];
      var next := if first in texts && texts[first] != "" then onto[first := texts[first]] else onto;
      AddedText(next, texts, fields[1..], field);
      assert fields == [first] + fields[1..];
    }
  }

  /** The texts that survive printing and parsing: the non-empty ones. */
  function NonEmpty(texts: map<TextField, string>): map<TextField, string>
  {
    map field | field in texts && texts[field] != "" :: texts[field]
  }

  lemma AllTextsAreAdded(texts: map<TextField, string>)
    ensures AddTexts(AddTexts(map[], texts, FRONT), texts, BACK) == NonEmpty(texts)
  {
    var front := AddTexts(map[], texts, FRONT);
    var all := AddTexts(front, texts, BACK);
    forall field: TextField ensures field in all <==> field in NonEmpty(texts)
    {
      AddedText(map[], texts, FRONT, field);
      AddedText(front, texts, BACK, field);
      FieldsAreListed(field);
    }
    forall field | field in all ensures all[field] == NonEmpty(texts)[field] {
      AddedText(map[], texts, FRONT, field);
      AddedText(front, texts, BACK, field);
    }
  }

  lemma FieldsAreListed(field: TextField)
    ensures field in FRONT || field in BACK
  {
    assert FRONT[0].ServerName? && FRONT[1].Torii? && FRONT[2].PayTo? && FRONT[3].KaigiDomain?
           && FRONT[4].KaigiCallName? && FRONT[5].KaigiPrivacyMode? && BACK[0].Nonce? && BACK[1].Signature?;
  }

  /** The parser's variables after reading a printed link. */
  function DraftOf<A>(link: JoinLink<A>): Draft<A>
  {
    Draft(link.version, Some(link.relay), Some(link.channel), link.authenticated, link.insecure,
          NonEmpty(link.texts), link.expiresAtMs)
  }

  lemma FlagIsRead(b: bool)
    ensures ParseBoolish(Flag(b)) == Some(b)
  {
    Text.TrimKeeps(Flag(b));
    assert Text.AsciiLower(Flag(b)) == Flag(b);
  }

  /** Each of the five leading parameters is read as what it was printed from. */
  lemma HeadValuesAreRead<A(!new)>(env: Env<A>, draft: Draft<A>, link: JoinLink<A>)
    requires Lawful(env) && |link.channel| == 32
    ensures AcceptKey(env, draft, VersionKey, ToDecimal(link.version)) == Ok(draft.(version := link.version))
    ensures AcceptKey(env, draft, RelayKey, env.printAddr(link.relay)) == Ok(draft.(relay := Some(link.relay)))
    ensures AcceptKey(env, draft, ChannelKey, HexEncode(link.channel)) == Ok(draft.(channel := Some(link.channel)))
    ensures AcceptKey(env, draft, AuthenticatedKey, Flag(link.authenticated))
            == Ok(draft.(authenticated := link.authenticated))
    ensures AcceptKey(env, draft, InsecureKey, Flag(link.insecure)) == Ok(draft.(insecure := link.insecure))
  {
    VersionIsRead(env, draft, link);
    ChannelIsRead(link.channel);
    FlagsAreRead(env, draft, link);
  }

  lemma VersionIsRead<A>(env: Env<A>, draft: Draft<A>, link: JoinLink<A>)
    ensures AcceptKey(env, draft, VersionKey, ToDecimal(link.version)) == Ok(draft.(version := link.version))
  {
    PrintedNumberParses(link.version, 0xFF);
  }

  lemma FlagsAreRead<A>(env: Env<A>, draft: Draft<A>, link: JoinLink<A>)
    ensures AcceptKey(env, draft, AuthenticatedKey, Flag(link.authenticated))
            == Ok(draft.(authenticated := link.authenticated))
    ensures AcceptKey(env, draft, InsecureKey, Flag(link.insecure)) == Ok(draft.(insecure := link.insecure))
  {
    FlagIsRead(link.authenticated);
    FlagIsRead(link.insecure);
  }

  lemma ChannelIsRead(channel: seq<u8>)
    requires |channel| == 32
    ensures DecodeHex32(HexEncode(channel)) == Some(channel)
  {
    HexRoundTrip(channel);
    LowerHexIsTrim(HexEncode(channel));
  }

  lemma LowerHexIsTrim(s: string)
    requires AllLowerHex(s)
    ensures Text.Trim(s) == s
  {
    Text.TrimKeeps(s);
  }

  lemma HeadIsRead<A(!new)>(env: Env<A>, link: JoinLink<A>)
    requires Lawful(env) && |link.channel| == 32
    ensures AcceptParams(env, EmptyDraft(), HeadParams(env, link))
         == Ok(Draft(link.version, Some(link.relay), Some(link.channel), link.authenticated, link.insecure, map[],
                     None))
  {
    var d0 := EmptyDraft<A>();
    var d1 := d0.(version := link.version);
    var d2 := d1.(relay := Some(link.relay));
    var d3 := d2.(channel := Some(link.channel));
    var d4 := d3.(authenticated := link.authenticated);
    HeadValuesAreRead(env, d0, link);
    HeadValuesAreRead(env, d1, link);
    HeadValuesAreRead(env, d2, link);
    HeadValuesAreRead(env, d3, link);
    HeadValuesAreRead(env, d4, link);
    FiveSteps(env, HeadParams(env, link), [d0, d1, d2, d3, d4, d4.(insecure := link.insecure)]);
  }

  lemma FiveSteps<A>(env: Env<A>, params: seq<Param>, drafts: seq<Draft<A>>)
    requires |params| == 5 && |drafts| == 6
    requires forall i :: 0 <= i < 5 ==> AcceptKey(env, drafts[i], params[i].0, params[i].1) == Ok(drafts[i + 1])
    ensures AcceptParams(env, drafts[0], params) == Ok(drafts[5])
  {
    var i := 5;
    assert AcceptParams(env, drafts[5], params[5..]) == Ok(drafts[5]);
    while i > 0
      invariant 0 <= i <= 5
      invariant AcceptParams(env, drafts[i], params[i..]) == Ok(drafts[5])
    {
      i := i - 1;
      assert params[i..][1..] == params[i + 1..];
    }
    assert params[0..] == params;
  }

  lemma ExpiryIsRead<A>(env: Env<A>, draft: Draft<A>, expiresAtMs: Option<u64>)
    requires draft.expiresAtMs.None?
    ensures AcceptParams(env, draft, ExpiryParams(expiresAtMs)) == Ok(draft.(expiresAtMs := expiresAtMs))
  {
    if expiresAtMs.Some? {
      PrintedNumberParses(expiresAtMs.value, U64_MAX);
      DecimalRoundTrip(expiresAtMs.value);
      var next := draft.(expiresAtMs := expiresAtMs);
      assert ExpiryParams(expiresAtMs)[1..] == [];
      assert AcceptParams(env, next, []) == Ok(next);
    }
  }

  /** Whatever a link holds, reading what is printed of it gives back everything but its empty texts. */
  lemma ParamsAreRead<A(!new)>(env: Env<A>, link: JoinLink<A>)
    requires Lawful(env) && |link.channel| == 32
    ensures AcceptParams(env, EmptyDraft(), Params(env, link)) == Ok(DraftOf(link))
  {
    var front, back := TextParams(link.texts, FRONT), TextParams(link.texts, BACK);
    var expiry := ExpiryParams(link.expiresAtMs);
    HeadIsRead(env, link);
    var d1 := Draft(link.version, Some(link.relay), Some(link.channel), link.authenticated, link.insecure, map[], None);
    AcceptConcat(env, EmptyDraft(), HeadParams(env, link), front + (expiry + back));
    TextParamsAreAdded(env, d1, link.texts, FRONT);
    var d2 := d1.(texts := AddTexts(map[], link.texts, FRONT));
    AcceptConcat(env, d1, front, expiry + back);
    ExpiryIsRead(env, d2, link.expiresAtMs);
    var d3 := d2.(expiresAtMs := link.expiresAtMs);
    AcceptConcat(env, d2, expiry, back);
    TextParamsAreAdded(env, d3, link.texts, BACK);
    AllTextsAreAdded(link.texts);
  }

  // ----- The round trip -----

  /** What a payload must be for its printed form to keep all of it. */
  predicate Printable(texts: map<TextField, string>)
  {
    && (forall field <- texts :: texts[field] != "")
    && (KaigiDomain in texts <==> KaigiCallName in texts)
    && (KaigiPrivacyMode in texts ==> texts[KaigiPrivacyMode] == "transparent" || texts[KaigiPrivacyMode] == "zk")
  }

  /** Nonce and signature, where present, are small hexadecimal text. */
  predicate HexFields(texts: map<TextField, string>)
  {
    && (Nonce in texts ==> AllLowerHex(texts[Nonce]))
    && (Signature in texts ==> AllLowerHex(texts[Signature]))
  }

  lemma KeptModes(mode: string)
    requires IsPrivacyMode(mode)
    ensures KeptMode(mode) == mode <==> mode == "transparent" || mode == "zk"
  {
  }

  lemma KnownModes()
    ensures forall mode :: mode == "transparent" || mode == "zk" ==> IsPrivacyMode(mode) && KeptMode(mode) == mode
  {
    Text.TrimKeeps("transparent");
    Text.TrimKeeps("zk");
    assert NormalMode("transparent") == "transparent";
    assert NormalMode("zk") == "zk";
  }

  lemma PrintableIsFinished<A>(link: JoinLink<A>)
    requires HexFields(link.texts) && Printable(link.texts)
    ensures Finish(DraftOf(link)) == Ok(link)
  {
    KnownModes();
    PrintableIsNormal(link.texts);
  }

  lemma PrintableIsNormal(texts: map<TextField, string>)
    requires HexFields(texts) && Printable(texts)
    ensures NonEmpty(texts) == texts && NormalTexts(texts) == texts
  {
    forall field | field in texts ensures NormalText(field, texts[field]) == texts[field] {
      PrintableTextIsNormal(texts, field);
    }
  }

  lemma PrintableTextIsNormal(texts: map<TextField, string>, field: TextField)
    requires HexFields(texts) && Printable(texts) && field in texts
    ensures NormalText(field, texts[field]) == texts[field]
  {
    match field
    case KaigiPrivacyMode => KnownModes();
    case Nonce => LowerHexIsNormal(texts[field]);
    case Signature => LowerHexIsNormal(texts[field]);
    case _ =>
  }

  lemma FinishedIsPrintable<A>(link: JoinLink<A>)
    requires Finish(DraftOf(link)) == Ok(link)
    ensures Printable(link.texts)
  {
    var texts := NonEmpty(link.texts);
    assert NormalTexts(texts) == link.texts;
    assert NormalTexts(texts).Keys == texts.Keys;
    assert forall field <- link.texts :: field in texts;
    if KaigiPrivacyMode in texts {
      KeptModes(texts[KaigiPrivacyMode]);
    }
  }

  /** Reading a printed link: the payload, if it is printable and valid at the time. */
  lemma RenderedParses<A(!new)>(env: Env<A>, link: JoinLink<A>, nowMs: u64)
    requires Lawful(env) && |link.channel| == 32 && HexFields(link.texts)
    ensures Parsed(env, Rendered(env, link), nowMs) == Ok(link)
            <==> Printable(link.texts) && SecurityError(env, link, nowMs).None?
    ensures Printable(link.texts) && SecurityError(env, link, nowMs).Some? ==>
              Parsed(env, Rendered(env, link), nowMs) == Err(SecurityError(env, link, nowMs).value)
  {
    RenderedIsRead(env, link, nowMs);
    ParamsAreRead(env, link);
    if Printable(link.texts) {
      PrintableIsFinished(link);
    }
    if Finish(DraftOf(link)) == Ok(link) {
      FinishedIsPrintable(link);
    }
  }

  /** A link is issued with the expiry asked for, in small hexadecimal text, and signed over its own fields. */
  lemma IssuedIsSigned<A(!new)>(env: Env<A>, link: JoinLink<A>, expiresInSecs: u64, issuedMs: u64, nonce: seq<u8>)
    requires Lawful(env) && link.version == VERSION_SIGNED && |nonce| == NONCE_BYTES
    requires Issued(env, link, expiresInSecs, issuedMs, nonce).Ok?
    ensures var issued := Issued(env, link, expiresInSecs, issuedMs, nonce).value;
            && issued.version == VERSION_SIGNED
            && issued.expiresAtMs == Some(issuedMs + expiresInSecs * 1000)
            && Nonce in issued.texts && Signature in issued.texts && HexFields(issued.texts)
            && |issued.texts[Nonce]| == 32 && HexDecode(issued.texts[Nonce]).Some?
            && |issued.texts[Signature]| == 64 && HexDecode(issued.texts[Signature]).Some?
            && SignatureOf(env, issued, issued.expiresAtMs.value, issued.texts[Nonce]) == issued.texts[Signature]
  {
    var issued := Issued(env, link, expiresInSecs, issuedMs, nonce).value;
    var expiresAtMs, nonceHex := issued.expiresAtMs.value, issued.texts[Nonce];
    HexRoundTrip(nonce);
    SignatureIsHex(env, link, expiresAtMs, nonceHex);
    SignatureIgnoresSecurityFields(env, link, issued, expiresAtMs, nonceHex);
  }

  lemma SignatureIsHex<A(!new)>(env: Env<A>, link: JoinLink<A>, expiresAtMs: u64, nonce: string)
    requires Lawful(env)
    ensures var signature := SignatureOf(env, link, expiresAtMs, nonce);
            AllLowerHex(signature) && |signature| == 64 && HexDecode(signature).Some?
  {
    HexRoundTrip(env.digest("join_link_v2" + CanonicalText(env, link, expiresAtMs, nonce)));
  }

  /** A link issued at `issuedMs` is valid at any later time exactly until it expires. */
  lemma IssuedIsValidUntilExpiry<A(!new)>(env: Env<A>, link: JoinLink<A>, expiresInSecs: u64, issuedMs: u64,
                                          nonce: seq<u8>, nowMs: u64)
    requires Lawful(env) && link.version == VERSION_SIGNED && |nonce| == NONCE_BYTES && issuedMs <= nowMs
    requires Issued(env, link, expiresInSecs, issuedMs, nonce).Ok?
    ensures var issued := Issued(env, link, expiresInSecs, issuedMs, nonce).value;
            && issued.expiresAtMs == Some(issuedMs + expiresInSecs * 1000)
            && HexFields(issued.texts)
            && (Printable(issued.texts) <==> Printable(link.texts - {Nonce, Signature}))
            && SecurityError(env, issued, nowMs) == if nowMs < issuedMs + expiresInSecs * 1000 then None
                                                    else Some(Expired)
  {
    IssuedIsSigned(env, link, expiresInSecs, issuedMs, nonce);
    var issued := Issued(env, link, expiresInSecs, issuedMs, nonce).value;
    SignedIsValid(env, issued, nowMs);
    PrintableWithSecurity(link.texts, issued.texts[Nonce], issued.texts[Signature]);
  }

  lemma SignatureIgnoresSecurityFields<A>(env: Env<A>, a: JoinLink<A>, b: JoinLink<A>, expiresAtMs: u64, nonce: string)
    requires a.(texts := map[], expiresAtMs := None) == b.(texts := map[], expiresAtMs := None)
    requires a.texts - {Nonce, Signature} == b.texts - {Nonce, Signature}
    ensures SignatureOf(env, a, expiresAtMs, nonce) == SignatureOf(env, b, expiresAtMs, nonce)
  {
    forall field | field != Nonce && field != Signature ensures TextOr(a.texts, field) == TextOr(b.texts, field) {
      assert field in a.texts <==> field in a.texts - {Nonce, Signature};
      assert field in b.texts <==> field in b.texts - {Nonce, Signature};
    }
  }

  lemma SignedIsValid<A>(env: Env<A>, link: JoinLink<A>, nowMs: u64)
    requires link.version == VERSION_SIGNED && link.expiresAtMs.Some? && Nonce in link.texts && Signature in link.texts
    requires AllLowerHex(link.texts[Nonce]) && |link.texts[Nonce]| == 32 && HexDecode(link.texts[Nonce]).Some?
    requires AllLowerHex(link.texts[Signature]) && |link.texts[Signature]| == 64
             && HexDecode(link.texts[Signature]).Some?
    requires SignatureOf(env, link, link.expiresAtMs.value, link.texts[Nonce]) == link.texts[Signature]
    ensures SecurityError(env, link, nowMs)
         == if link.expiresAtMs.value <= nowMs then Some(Expired)
            else if link.expiresAtMs.value > SatU64(nowMs + 604_800_000) then Some(ExpiryTooFar) else None
  {
    LowerHexIsNormal(link.texts[Nonce]);
    LowerHexIsNormal(link.texts[Signature]);
  }

  lemma PrintableWithSecurity(texts: map<TextField, string>, nonce: string, signature: string)
    requires nonce != "" && signature != ""
    ensures Printable(texts[Nonce := nonce][Signature := signature]) <==> Printable(texts - {Nonce, Signature})
  {
    var more, less := texts[Nonce := nonce][Signature := signature], texts - {Nonce, Signature};
    assert forall field <- less :: field in more && more[field] == less[field];
    assert forall field <- more :: field in less || field == Nonce || field == Signature;
  }

  /**
   A link that was issued and printed parses to itself at every time from its issue until just before it expires,
   provided its texts are printable, and only then; from its expiry on it never parses.
   */
  lemma IssuedLinkRoundTrip<A(!new)>(env: Env<A>, link: JoinLink<A>, expiresInSecs: u64, issuedMs: u64, nonce: seq<u8>,
                                     nowMs: u64)
    requires Lawful(env) && |link.channel| == 32 && link.version == VERSION_SIGNED && |nonce| == NONCE_BYTES
    requires Issued(env, link, expiresInSecs, issuedMs, nonce).Ok? && issuedMs <= nowMs
    ensures var issued := Issued(env, link, expiresInSecs, issuedMs, nonce).value;
            var parsed := Parsed(env, Rendered(env, issued), nowMs);
            && (parsed == Ok(issued)
                <==> Printable(link.texts - {Nonce, Signature}) && nowMs < issuedMs + expiresInSecs * 1000)
            && (Printable(link.texts - {Nonce, Signature}) && nowMs >= issuedMs + expiresInSecs * 1000 ==>
                  parsed == Err(Expired))
  {
    IssuedIsValidUntilExpiry(env, link, expiresInSecs, issuedMs, nonce, nowMs);
    RenderedParses(env, Issued(env, link, expiresInSecs, issuedMs, nonce).value, nowMs);
  }

  /**
   A link of the first version, without security fields, parses to itself at every time exactly when its texts are
   printable.
   */
  lemma LegacyLinkRoundTrip<A(!new)>(env: Env<A>, link: JoinLink<A>, nowMs: u64)
    requires Lawful(env) && |link.channel| == 32 && link.version == VERSION_LEGACY
    requires link.expiresAtMs.None? && Nonce !in link.texts && Signature !in link.texts
    ensures Parsed(env, Rendered(env, link), nowMs) == Ok(link) <==> Printable(link.texts)
  {
    RenderedParses(env, link, nowMs);
  }

  /**
   Issuing fails exactly on a duration of zero or more than a week, or when the clock cannot hold the expiry; a link of
   another version is left as it is.
   */
  lemma IssuingFails<A>(env: Env<A>, link: JoinLink<A>, expiresInSecs: u64, nowMs: u64, nonce: seq<u8>)
    ensures var issued := Issued(env, link, expiresInSecs, nowMs, nonce);
            if link.version != 2 then issued == Ok(link)
            else if expiresInSecs == 0 then issued == Err(ExpiresInTooSmall)
            else if expiresInSecs > 604_800 then issued == Err(ExpiresInTooLarge)
            else if nowMs + expiresInSecs * 1000 > U64_MAX then issued == Err(ExpiryOverflow)
            else issued.Ok? && issued.value.expiresAtMs == Some(nowMs + expiresInSecs * 1000)
  {
  }

  /** A link is accepted at a time only if its expiry lies after it and at most a week ahead. */
  lemma AcceptedLinksExpireWithinAWeek<A>(env: Env<A>, text: string, nowMs: u64)
    ensures var parsed := Parsed(env, text, nowMs);
            parsed.Ok? && parsed.value.version != VERSION_LEGACY ==>
              && parsed.value.version == VERSION_SIGNED
              && parsed.value.expiresAtMs.Some?
              && nowMs < parsed.value.expiresAtMs.value <= nowMs + 604_800_000
              && Nonce in parsed.value.texts
  {
  }
}
