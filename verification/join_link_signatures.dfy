/** Which payloads can be accepted at all, what a signature covers, and how a link with another signature is refused. */
module JoinLinkSignatures {
  import opened Basics
  import opened Digits
  import opened Query
  import opened JoinLinks
  import opened JoinLinkLaws
  import opened JoinLinkAcceptance
  import Text

  // ----- Exactly the acceptable payloads -----

  /** The texts with a hexadecimal prefix in front of nonce and signature. */
  function Prefixed(texts: map<TextField, string>): map<TextField, string>
  {
    map field | field in texts ::
      if field == Nonce || field == Signature then "0x" + texts[field] else texts[field]
  }

  lemma HexTextEnds(s: string, digits: nat)
    requires IsHexText(s, digits) && digits > 0
    ensures s != "" && !Text.IsWhitespace(s[|s| - 1])
  {
    var prefix: string :| prefix in ["", "0x", "0X"] && HexBehind(s, prefix, digits);
    assert IsHexDigit(s[|s| - 1]);
  }

  lemma PrefixedTextIsRead<A>(env: Env<A>, link: JoinLink<A>, nowMs: u64, field: TextField)
    requires Acceptable(env, link, nowMs) && field in link.texts
    ensures NormalText(field, Prefixed(link.texts)[field]) == link.texts[field]
  {
    var text := link.texts[field];
    match field
    case Nonce =>
      HexTextEnds(text, 32);
      PrefixIsStripped(text);
    case Signature =>
      HexTextEnds(text, 64);
      PrefixIsStripped(text);
    case KaigiPrivacyMode => KnownModes();
    case _ =>
  }

  lemma PrefixedIsFinished<A>(env: Env<A>, link: JoinLink<A>, nowMs: u64)
    requires Acceptable(env, link, nowMs)
    ensures Finish(DraftOf(link.(texts := Prefixed(link.texts)))) == Ok(link)
  {
    var texts := Prefixed(link.texts);
    forall field | field in texts ensures NormalText(field, texts[field]) == link.texts[field] {
      PrefixedTextIsRead(env, link, nowMs, field);
    }
    assert NormalTexts(texts) == link.texts;
    assert NonEmpty(texts) == texts && Printable(texts);
    TextsFinish(link, texts);
  }

  /** Every acceptable payload is accepted from its own printed form with a prefix in front of nonce and signature. */
  lemma PrefixedIsAccepted<A(!new)>(env: Env<A>, link: JoinLink<A>, nowMs: u64)
    requires Lawful(env) && Acceptable(env, link, nowMs)
    ensures Parsed(env, Rendered(env, link.(texts := Prefixed(link.texts))), nowMs) == Ok(link)
  {
    var printed := link.(texts := Prefixed(link.texts));
    RenderedIsRead(env, printed, nowMs);
    ParamsAreRead(env, printed);
    PrefixedIsFinished(env, link, nowMs);
    SecuredExactly(env, link, nowMs);
  }

  /** A payload is accepted from some text exactly if it is acceptable. */
  lemma AcceptedExactly<A(!new)>(env: Env<A>, link: JoinLink<A>, nowMs: u64)
    requires Lawful(env)
    ensures (exists text :: Parsed(env, text, nowMs) == Ok(link)) <==> Acceptable(env, link, nowMs)
  {
    if text :| Parsed(env, text, nowMs) == Ok(link) {
      AcceptedIsAcceptable(env, text, nowMs);
    }
    if Acceptable(env, link, nowMs) {
      PrefixedIsAccepted(env, link, nowMs);
    }
  }

  // ----- Refusals -----

  /** The reason for a refusal is the first check that fails. */
  function RefusalReason(expiresAtMs: u64, nowMs: u64, nonceIsHex: bool, signatureIsHex: bool, matches: bool)
    : Option<LinkError>
  {
    if expiresAtMs <= nowMs then Some(Expired)
    else if expiresAtMs > nowMs + 604_800_000 then Some(ExpiryTooFar)
    else if !nonceIsHex then Some(BadNonce)
    else if !signatureIsHex then Some(BadSignature)
    else if !matches then Some(SignatureMismatch)
    else None
  }

  lemma SignedRefusal<A>(env: Env<A>, link: JoinLink<A>, nowMs: u64, nonceIsHex: bool, signatureIsHex: bool,
                         matches: bool)
    requires link.version == 2 && link.expiresAtMs.Some? && Nonce in link.texts && Signature in link.texts
    requires nonceIsHex <==> IsHexText(link.texts[Nonce], 32)
    requires signatureIsHex <==> IsHexText(link.texts[Signature], 64)
    requires matches <==> NormalizeHexArg(link.texts[Signature])
                          == SignatureOf(env, link, link.expiresAtMs.value, link.texts[Nonce])
    ensures SecurityError(env, link, nowMs)
            == RefusalReason(link.expiresAtMs.value, nowMs, nonceIsHex, signatureIsHex, matches)
  {
    HexTextExactly(link.texts[Nonce], 32);
    HexTextExactly(link.texts[Signature], 64);
  }

  /** A link that is not of the signed version, or lacks a security field, is refused for that reason. */
  lemma VersionRefusal<A>(env: Env<A>, link: JoinLink<A>, nowMs: u64)
    ensures link.version == 1 ==>
              SecurityError(env, link, nowMs)
              == if link.expiresAtMs.Some? || Nonce in link.texts || Signature in link.texts
                 then Some(LegacyWithSecurityFields) else None
    ensures link.version != 1 && link.version != 2 ==> SecurityError(env, link, nowMs) == Some(UnsupportedVersion)
    ensures link.version == 2 && (link.expiresAtMs.None? || Nonce !in link.texts || Signature !in link.texts) ==>
              SecurityError(env, link, nowMs) == Some(MissingSecurityField)
  {
  }

  lemma LowerHexIsHexText(s: string)
    requires AllLowerHex(s)
    ensures IsHexText(s, |s|)
  {
    assert HexBehind(s, "", |s|);
  }

  /** A valid link whose signature is replaced by any other 64 small digits is refused for its signature. */
  lemma OtherSignatureIsRefused<A(!new)>(env: Env<A>, link: JoinLink<A>, nowMs: u64, signature: string)
    requires Lawful(env) && link.version == 2 && Acceptable(env, link, nowMs) && HexFields(link.texts)
    requires AllLowerHex(signature) && |signature| == 64 && signature != link.texts[Signature]
    ensures Parsed(env, Rendered(env, link.(texts := link.texts[Signature := signature])), nowMs)
            == Err(SignatureMismatch)
  {
    var forged := link.(texts := link.texts[Signature := signature]);
    OtherSignatureDiffers(env, link, nowMs, signature);
    assert Printable(forged.texts) && HexFields(forged.texts);
    RenderedParses(env, forged, nowMs);
  }

  lemma OtherSignatureDiffers<A>(env: Env<A>, link: JoinLink<A>, nowMs: u64, signature: string)
    requires link.version == 2 && Acceptable(env, link, nowMs) && HexFields(link.texts)
    requires AllLowerHex(signature) && |signature| == 64 && signature != link.texts[Signature]
    ensures SecurityError(env, link.(texts := link.texts[Signature := signature]), nowMs) == Some(SignatureMismatch)
  {
    var forged := link.(texts := link.texts[Signature := signature]);
    SignatureDiffers(env, link, forged, nowMs);
    LowerHexIsHexText(signature);
    SignedRefusal(env, forged, nowMs, true, true, false);
  }

  lemma SignatureDiffers<A>(env: Env<A>, link: JoinLink<A>, forged: JoinLink<A>, nowMs: u64)
    requires SignedProperly(env, link, nowMs) && AllLowerHex(link.texts[Signature])
    requires Signature in forged.texts && AllLowerHex(forged.texts[Signature])
    requires forged == link.(texts := link.texts[Signature := forged.texts[Signature]])
    requires forged.texts[Signature] != link.texts[Signature]
    ensures NormalizeHexArg(forged.texts[Signature])
            != SignatureOf(env, forged, link.expiresAtMs.value, forged.texts[Nonce])
  {
    LowerHexIsNormal(forged.texts[Signature]);
    SignatureStays(env, link, forged, nowMs);
  }

  lemma SignatureStays<A>(env: Env<A>, link: JoinLink<A>, forged: JoinLink<A>, nowMs: u64)
    requires SignedProperly(env, link, nowMs) && AllLowerHex(link.texts[Signature])
    requires Signature in forged.texts && forged == link.(texts := link.texts[Signature := forged.texts[Signature]])
    ensures SignatureOf(env, forged, link.expiresAtMs.value, forged.texts[Nonce]) == link.texts[Signature]
  {
    LowerHexIsNormal(link.texts[Signature]);
    assert forged.texts - {Nonce, Signature} == link.texts - {Nonce, Signature};
    SignatureIgnoresSecurityFields(env, link, forged, link.expiresAtMs.value, link.texts[Nonce]);
  }

  // ----- What a signature covers -----

  lemma {:induction false} JoinTellsApart(parts: seq<string>, k: nat, a: string, b: string, sep: char)
    requires k < |parts| && a != b
    ensures Join(parts[k := a], sep) != Join(parts[k := b], sep)
  {
    var p, q := parts[k := a], parts[k := b];
    if k > 0 {
      JoinTellsApart(parts[1..], k - 1, a, b, sep);
      assert p[1..] == parts[1..][k - 1 := a] && q[1..] == parts[1..][k - 1 := b];
      HeadsCancel(parts[0] + [sep], Join(p[1..], sep), Join(q[1..], sep));
    } else if |parts| > 1 {
      assert p[1..] == q[1..];
      TailsCancel(a, b, [sep] + Join(p[1..], sep));
      assert a + [sep] + Join(p[1..], sep) == a + ([sep] + Join(p[1..], sep));
      assert b + [sep] + Join(p[1..], sep) == b + ([sep] + Join(p[1..], sep));
    }
  }

  lemma HeadsCancel(head: string, a: string, b: string)
    requires a != b
    ensures head + a != head + b
  {
    assert (head + a)[|head|..] == a && (head + b)[|head|..] == b;
  }

  lemma TailsCancel(a: string, b: string, tail: string)
    requires a != b
    ensures a + tail != b + tail
  {
    if |a| == |b| {
      assert (a + tail)[..|a|] == a && (b + tail)[..|b|] == b;
    } else {
      assert |a + tail| != |b + tail|;
    }
  }

  /** The parts of the signed text, in their order. */
  function SignedParts<A>(env: Env<A>, link: JoinLink<A>, expiresAtMs: u64, nonce: string): (parts: seq<string>)
    ensures |parts| == 13
  {
    [ ToDecimal(link.version), env.printAddr(link.relay), HexEncode(link.channel),
      Flag(link.authenticated), Flag(link.insecure),
      TextOr(link.texts, ServerName), TextOr(link.texts, Torii), TextOr(link.texts, PayTo),
      TextOr(link.texts, KaigiDomain), TextOr(link.texts, KaigiCallName), TextOr(link.texts, KaigiPrivacyMode),
      ToDecimal(expiresAtMs), NormalizeHexArg(nonce) ]
  }

  function PlaceOf(field: TextField): (k: nat)
    requires field != Nonce && field != Signature
    ensures 5 <= k < 11
  {
    match field
    case ServerName => 5
    case Torii => 6
    case PayTo => 7
    case KaigiDomain => 8
    case KaigiCallName => 9
    case KaigiPrivacyMode => 10
  }

  /** Links that differ in one text have different signed texts. */
  lemma TextsAreSigned<A>(env: Env<A>, link: JoinLink<A>, field: TextField, a: string, b: string, expiresAtMs: u64,
                          nonce: string)
    requires field != Nonce && field != Signature && a != b
    ensures CanonicalText(env, link.(texts := link.texts[field := a]), expiresAtMs, nonce)
            != CanonicalText(env, link.(texts := link.texts[field := b]), expiresAtMs, nonce)
  {
    var parts, k := SignedParts(env, link, expiresAtMs, nonce), PlaceOf(field);
    JoinTellsApart(parts, k, a, b, '|');
    OneTextChanges(env, link, field, a, expiresAtMs, nonce);
    OneTextChanges(env, link, field, b, expiresAtMs, nonce);
  }

  lemma OneTextChanges<A>(env: Env<A>, link: JoinLink<A>, field: TextField, a: string, expiresAtMs: u64, nonce: string)
    requires field != Nonce && field != Signature
    ensures SignedParts(env, link.(texts := link.texts[field := a]), expiresAtMs, nonce)
            == SignedParts(env, link, expiresAtMs, nonce)[PlaceOf(field) := a]
  {
  }

  /** The k-th part of the signed text depends on one field, and tells its values apart. */
  lemma PartIsSigned<A>(env: Env<A>, a: JoinLink<A>, b: JoinLink<A>, expiryA: u64, expiryB: u64, nonceA: string,
                        nonceB: string, k: nat)
    requires k < 13
    requires var p, q := SignedParts(env, a, expiryA, nonceA), SignedParts(env, b, expiryB, nonceB);
             p[k] != q[k] && p == q[k := p[k]]
    ensures CanonicalText(env, a, expiryA, nonceA) != CanonicalText(env, b, expiryB, nonceB)
  {
    var p, q := SignedParts(env, a, expiryA, nonceA), SignedParts(env, b, expiryB, nonceB);
    JoinTellsApart(q, k, p[k], q[k], '|');
    assert q[k := q[k]] == q;
  }

  lemma DecimalsDiffer(a: nat, b: nat)
    requires a != b
    ensures ToDecimal(a) != ToDecimal(b)
  {
    DecimalRoundTrip(a);
    DecimalRoundTrip(b);
  }

  lemma HexDiffers(a: seq<u8>, b: seq<u8>)
    requires a != b
    ensures HexEncode(a) != HexEncode(b)
  {
    HexRoundTrip(a);
    HexRoundTrip(b);
  }

  /** Links that differ in their version, relay, channel or one flag alone have different signed texts. */
  lemma FieldsAreSigned<A(!new)>(env: Env<A>, link: JoinLink<A>, other: JoinLink<A>, expiresAtMs: u64, nonce: string)
    requires Lawful(env) && link != other
    requires || link == other.(version := link.version) || link == other.(relay := link.relay)
             || link == other.(channel := link.channel) || link == other.(authenticated := link.authenticated)
             || link == other.(insecure := link.insecure)
    ensures CanonicalText(env, link, expiresAtMs, nonce) != CanonicalText(env, other, expiresAtMs, nonce)
  {
    if link.version != other.version {
      VersionIsSigned(env, link, other, expiresAtMs, nonce);
    } else if link.channel != other.channel {
      ChannelIsSigned(env, link, other, expiresAtMs, nonce);
    } else if link.relay != other.relay {
      PartIsSigned(env, link, other, expiresAtMs, expiresAtMs, nonce, nonce, 1);
    } else if link.authenticated != other.authenticated {
      AuthenticatedIsSigned(env, link, other, expiresAtMs, nonce);
    } else {
      InsecureIsSigned(env, link, other, expiresAtMs, nonce);
    }
  }

  lemma VersionIsSigned<A>(env: Env<A>, link: JoinLink<A>, other: JoinLink<A>, expiresAtMs: u64, nonce: string)
    requires link.version != other.version && link == other.(version := link.version)
    ensures CanonicalText(env, link, expiresAtMs, nonce) != CanonicalText(env, other, expiresAtMs, nonce)
  {
    DecimalsDiffer(link.version, other.version);
    PartIsSigned(env, link, other, expiresAtMs, expiresAtMs, nonce, nonce, 0);
  }

  lemma ChannelIsSigned<A>(env: Env<A>, link: JoinLink<A>, other: JoinLink<A>, expiresAtMs: u64, nonce: string)
    requires link.channel != other.channel && link == other.(channel := link.channel)
    ensures CanonicalText(env, link, expiresAtMs, nonce) != CanonicalText(env, other, expiresAtMs, nonce)
  {
    HexDiffers(link.channel, other.channel);
    PartIsSigned(env, link, other, expiresAtMs, expiresAtMs, nonce, nonce, 2);
  }

  lemma AuthenticatedIsSigned<A>(env: Env<A>, link: JoinLink<A>, other: JoinLink<A>, expiresAtMs: u64, nonce: string)
    requires link.authenticated != other.authenticated && link == other.(authenticated := link.authenticated)
    ensures CanonicalText(env, link, expiresAtMs, nonce) != CanonicalText(env, other, expiresAtMs, nonce)
  {
    PartIsSigned(env, link, other, expiresAtMs, expiresAtMs, nonce, nonce, 3);
  }

  lemma InsecureIsSigned<A>(env: Env<A>, link: JoinLink<A>, other: JoinLink<A>, expiresAtMs: u64, nonce: string)
    requires link.insecure != other.insecure && link == other.(insecure := link.insecure)
    ensures CanonicalText(env, link, expiresAtMs, nonce) != CanonicalText(env, other, expiresAtMs, nonce)
  {
    PartIsSigned(env, link, other, expiresAtMs, expiresAtMs, nonce, nonce, 4);
  }

  /** And so have different expiries, and nonces that differ in their normal form. */
  lemma ExpiryAndNonceAreSigned<A>(env: Env<A>, link: JoinLink<A>, expiryA: u64, expiryB: u64, nonceA: string,
                                   nonceB: string)
    requires (expiryA != expiryB) != (NormalizeHexArg(nonceA) != NormalizeHexArg(nonceB))
    ensures CanonicalText(env, link, expiryA, nonceA) != CanonicalText(env, link, expiryB, nonceB)
  {
    if expiryA != expiryB {
      DecimalsDiffer(expiryA, expiryB);
      PartIsSigned(env, link, link, expiryA, expiryB, nonceA, nonceB, 11);
    } else {
      PartIsSigned(env, link, link, expiryA, expiryB, nonceA, nonceB, 12);
    }
  }

  /** Equal signatures are those of texts with equal digests. */
  lemma SignatureIsTheDigest<A>(env: Env<A>, a: JoinLink<A>, b: JoinLink<A>, expiryA: u64, expiryB: u64, nonceA: string,
                                nonceB: string)
    ensures SignatureOf(env, a, expiryA, nonceA) == SignatureOf(env, b, expiryB, nonceB) <==>
            env.digest("join_link_v2" + CanonicalText(env, a, expiryA, nonceA))
            == env.digest("join_link_v2" + CanonicalText(env, b, expiryB, nonceB))
  {
    var da := env.digest("join_link_v2" + CanonicalText(env, a, expiryA, nonceA));
    var db := env.digest("join_link_v2" + CanonicalText(env, b, expiryB, nonceB));
    if da != db {
      HexDiffers(da, db);
    }
  }
}
