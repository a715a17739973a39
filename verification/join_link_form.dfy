/** The printed form of a link, spelled out. */
module JoinLinkForm {
  import opened Basics
  import opened Digits
  import opened Percent
  import opened Query
  import opened JoinLinks

  /** What stands in front of the value of a parameter. */
  function Lead(key: Key): string
  {
    match key
    case VersionKey => "&v="
    case RelayKey => "&relay="
    case ChannelKey => "&channel="
    case AuthenticatedKey => "&authenticated="
    case InsecureKey => "&insecure="
    case ExpiryKey => "&exp="
    case TextKey(ServerName) => "&sni="
    case TextKey(Torii) => "&torii="
    case TextKey(PayTo) => "&pay_to="
    case TextKey(KaigiDomain) => "&kaigi_domain="
    case TextKey(KaigiCallName) => "&kaigi_call_name="
    case TextKey(KaigiPrivacyMode) => "&kaigi_privacy_mode="
    case TextKey(Nonce) => "&nonce="
    case TextKey(Signature) => "&sig="
  }

  function HeadPart<A>(env: Env<A>, link: JoinLink<A>): string
  {
    Lead(VersionKey) + ToDecimal(link.version)
    + (Lead(RelayKey) + PctEncoded(env.printAddr(link.relay))
       + (Lead(ChannelKey) + HexEncode(link.channel)
          + (Lead(AuthenticatedKey) + (if link.authenticated then "1" else "0")
             + (Lead(InsecureKey) + if link.insecure then "1" else "0"))))
  }

  /** The parameters of the texts that are present, in the order of the fields. */
  function TextParts(texts: map<TextField, string>, fields: seq<TextField>): string
  {
    if fields == [] then "" else
      (if fields[0] in texts then Lead(TextKey(fields[0])) + PctEncoded(texts[fields[0]]) else "")
      + TextParts(texts, fields[1..])
  }

  function ExpiryPart(expiresAtMs: Option<u64>): string
  {
    if expiresAtMs.Some? then Lead(ExpiryKey) + ToDecimal(expiresAtMs.value) else ""
  }

  /** The whole link; the first parameter is led by a question mark instead. */
  function Form<A>(env: Env<A>, link: JoinLink<A>): string
  {
    "kaigi://join?"
    + (HeadPart(env, link)
       + (TextParts(link.texts, [ServerName, Torii, PayTo, KaigiDomain, KaigiCallName, KaigiPrivacyMode])
          + (ExpiryPart(link.expiresAtMs) + TextParts(link.texts, [Nonce, Signature]))))[1..]
  }

  lemma LeadIsKey(key: Key)
    ensures Lead(key) == "&" + KeyText(key) + "="
  {
    if key.TextKey? {
      if key.field.KaigiDomain? || key.field.KaigiCallName? || key.field.KaigiPrivacyMode? {
        CallLeadIsKey(key.field);
      } else {
        TextLeadIsKey(key.field);
      }
    }
  }

  lemma CallLeadIsKey(field: TextField)
    requires field.KaigiDomain? || field.KaigiCallName? || field.KaigiPrivacyMode?
    ensures Lead(TextKey(field)) == "&" + KeyText(TextKey(field)) + "="
  {
  }

  lemma TextLeadIsKey(field: TextField)
    requires !field.KaigiDomain? && !field.KaigiCallName? && !field.KaigiPrivacyMode?
    ensures Lead(TextKey(field)) == "&" + KeyText(TextKey(field)) + "="
  {
  }

  lemma KeysAreUnreserved(key: Key)
    ensures PctEncoded(KeyText(key)) == KeyText(key)
  {
    if key.TextKey? {
      TextKeysAreUnreserved(key.field);
    }
    UnreservedIsKept(KeyText(key));
  }

  lemma TextKeysAreUnreserved(field: TextField)
    ensures IsUnreservedText(KeyText(TextKey(field)))
  {
  }

  lemma DigitsAreUnreserved(n: nat)
    ensures PctEncoded(ToDecimal(n)) == ToDecimal(n)
  {
    DecimalRoundTrip(n);
    UnreservedIsKept(ToDecimal(n));
  }

  lemma HexIsUnreserved(bytes: seq<u8>)
    ensures PctEncoded(HexEncode(bytes)) == HexEncode(bytes)
  {
    HexRoundTrip(bytes);
    UnreservedIsKept(HexEncode(bytes));
  }

  lemma FlagIsUnreserved(b: bool)
    ensures PctEncoded(Flag(b)) == if b then "1" else "0"
  {
    UnreservedIsKept(Flag(b));
  }

  function LedPieces(params: seq<Param>): string
  {
    Led(Pieces(params), '&')
  }

  lemma PiecesConcat(a: seq<Param>, b: seq<Param>)
    ensures Pieces(a + b) == Pieces(a) + Pieces(b)
  {
    var pieces, both := Pieces(a) + Pieces(b), a + b;
    forall i | 0 <= i < |both| ensures Pieces(both)[i] == pieces[i] {
    }
  }

  lemma LedPiecesConcat(a: seq<Param>, b: seq<Param>)
    ensures LedPieces(a + b) == LedPieces(a) + LedPieces(b)
  {
    PiecesConcat(a, b);
    LedConcat(Pieces(a), Pieces(b), '&');
  }

  lemma OneIsLed(piece: string)
    ensures Led([piece], '&') == ['&'] + piece
  {
    assert Led([piece][1..], '&') == "";
  }

  lemma LeadJoins(name: string, value: string)
    ensures ['&'] + (name + ['='] + value) == "&" + name + "=" + value
  {
  }

  lemma LedPiece(key: Key, value: string)
    ensures LedPieces([(key, value)]) == Lead(key) + PctEncoded(value)
  {
    KeysAreUnreserved(key);
    LeadIsKey(key);
    var piece := Piece((key, value));
    OneIsLed(piece);
    LeadJoins(KeyText(key), PctEncoded(value));
    assert Pieces([(key, value)]) == [piece];
  }

  lemma LedParam(key: Key, value: string, rest: seq<Param>)
    ensures LedPieces([(key, value)] + rest) == Lead(key) + PctEncoded(value) + LedPieces(rest)
  {
    LedPiece(key, value);
    LedPiecesConcat([(key, value)], rest);
  }

  lemma {:induction false} TextPieces(texts: map<TextField, string>, fields: seq<TextField>)
    ensures LedPieces(TextParams(texts, fields)) == TextParts(texts, fields)
  {
    if fields != [] {
      var field, rest := fields[0], TextParams(texts, fields[1..]);
      TextPieces(texts, fields[1..]);
      if field in texts {
        LedParam(TextKey(field), texts[field], rest);
      } else {
        assert [] + rest == rest;
      }
    }
  }

  lemma ExpiryPiece(expiresAtMs: Option<u64>)
    ensures LedPieces(ExpiryParams(expiresAtMs)) == ExpiryPart(expiresAtMs)
  {
    if expiresAtMs.Some? {
      LedPiece(ExpiryKey, ToDecimal(expiresAtMs.value));
      DigitsAreUnreserved(expiresAtMs.value);
    }
  }

  lemma FlagPieces<A>(link: JoinLink<A>)
    ensures LedPieces([(AuthenticatedKey, Flag(link.authenticated)), (InsecureKey, Flag(link.insecure))])
         == Lead(AuthenticatedKey) + (if link.authenticated then "1" else "0")
            + (Lead(InsecureKey) + if link.insecure then "1" else "0")
  {
    LedParam(AuthenticatedKey, Flag(link.authenticated), [(InsecureKey, Flag(link.insecure))]);
    LedPiece(InsecureKey, Flag(link.insecure));
    FlagIsUnreserved(link.authenticated);
    FlagIsUnreserved(link.insecure);
    assert [(AuthenticatedKey, Flag(link.authenticated))] + [(InsecureKey, Flag(link.insecure))]
           == [(AuthenticatedKey, Flag(link.authenticated)), (InsecureKey, Flag(link.insecure))];
  }

  lemma ChannelPieces<A>(env: Env<A>, link: JoinLink<A>)
    ensures LedPieces(HeadParams(env, link)[2..])
         == Lead(ChannelKey) + HexEncode(link.channel)
            + (Lead(AuthenticatedKey) + (if link.authenticated then "1" else "0")
               + (Lead(InsecureKey) + if link.insecure then "1" else "0"))
  {
    var flags: seq<Param> := [(AuthenticatedKey, Flag(link.authenticated)), (InsecureKey, Flag(link.insecure))];
    LedParam(ChannelKey, HexEncode(link.channel), flags);
    HexIsUnreserved(link.channel);
    FlagPieces(link);
    assert HeadParams(env, link)[2..] == [(ChannelKey, HexEncode(link.channel))] + flags;
  }

  lemma RelayPieces<A>(env: Env<A>, link: JoinLink<A>)
    ensures LedPieces(HeadParams(env, link)[1..])
         == Lead(RelayKey) + PctEncoded(env.printAddr(link.relay)) + LedPieces(HeadParams(env, link)[2..])
  {
    var tail := HeadParams(env, link)[1..];
    LedParam(RelayKey, env.printAddr(link.relay), tail[1..]);
    assert tail == [tail[0]] + tail[1..];
    assert HeadParams(env, link)[2..] == tail[1..];
  }

  lemma HeadPieces<A>(env: Env<A>, link: JoinLink<A>)
    ensures LedPieces(HeadParams(env, link)) == HeadPart(env, link)
  {
    var head := HeadParams(env, link);
    RelayPieces(env, link);
    LedParam(VersionKey, ToDecimal(link.version), head[1..]);
    DigitsAreUnreserved(link.version);
    ChannelPieces(env, link);
    assert head == [head[0]] + head[1..];
  }

  lemma ParamsForm<A>(env: Env<A>, link: JoinLink<A>)
    ensures "kaigi://join?" + LedPieces(Params(env, link))[1..] == Form(env, link)
  {
    var front, back := TextParams(link.texts, FRONT), TextParams(link.texts, BACK);
    var expiry := ExpiryParams(link.expiresAtMs);
    HeadPieces(env, link);
    TextPieces(link.texts, FRONT);
    TextPieces(link.texts, BACK);
    ExpiryPiece(link.expiresAtMs);
    LedPiecesConcat(expiry, back);
    LedPiecesConcat(front, expiry + back);
    LedPiecesConcat(HeadParams(env, link), front + (expiry + back));
  }

  lemma LedStarts(first: string, rest: seq<string>)
    ensures Led([first] + rest, '&') != "" && Led([first] + rest, '&')[1..] == first + Led(rest, '&')
  {
    assert ([first] + rest)[1..] == rest;
    assert ['&'] + first + Led(rest, '&') == ['&'] + (first + Led(rest, '&'));
  }

  lemma SchemeIsSpelled()
    ensures SCHEME + ['?'] == "kaigi://join?"
  {
  }

  /** A link is printed key by key in a fixed order, with what is absent left out and every value encoded. */
  lemma PrintedForm<A>(env: Env<A>, link: JoinLink<A>)
    ensures Rendered(env, link) == Form(env, link)
  {
    var params := Params(env, link);
    var pieces := Pieces(params);
    ParamsForm(env, link);
    JoinLeads(pieces[0], pieces[1..], '&');
    assert pieces == [pieces[0]] + pieces[1..];
    LedStarts(pieces[0], pieces[1..]);
    SchemeIsSpelled();
  }
}
