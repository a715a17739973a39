/** Join links: printing, parsing, issuing and validating them. */
module JoinLinks {
  import opened Basics
  import opened Digits
  import opened Percent
  import opened Query
  import Text

  const VERSION_LEGACY: u8 := 1
  const VERSION_SIGNED: u8 := 2
  const NONCE_BYTES: nat := 16
  const MAX_EXPIRES_IN_SECS: u64 := 7 * 24 * 3600

  /** The optional text fields of a link. */
  datatype TextField =
    ServerName | Torii | PayTo | KaigiDomain | KaigiCallName | KaigiPrivacyMode | Nonce | Signature

  /** A link. The optional text fields are kept in one map: a field is absent when the map does not hold it. */
  datatype JoinLink<+A> = JoinLink(
    version: u8,
    relay: A,
    channel: seq<u8>,
    authenticated: bool,
    insecure: bool,
    texts: map<TextField, string>,
    expiresAtMs: Option<u64>)

  /** What lies outside: how addresses are written and read, and the 32-byte digest behind signatures. */
  datatype Env<!A> = Env(
    printAddr: A -> string,
    parseAddr: string -> Option<A>,
    digest: string -> seq<u8>)

  ghost predicate Lawful<A(!new)>(env: Env<A>)
  {
    && (forall a :: env.parseAddr(env.printAddr(a)) == Some(a))
    && (forall s :: |env.digest(s)| == 32)
  }

  // ----- Query keys -----

  datatype Key = VersionKey | RelayKey | ChannelKey | AuthenticatedKey | InsecureKey | ExpiryKey
    | TextKey(field: TextField)

  function KeyText(key: Key): string
  {
    match key
    case VersionKey => "v"
    case RelayKey => "relay"
    case ChannelKey => "channel"
    case AuthenticatedKey => "authenticated"
    case InsecureKey => "insecure"
    case ExpiryKey => "exp"
    case TextKey(ServerName) => "sni"
    case TextKey(Torii) => "torii"
    case TextKey(PayTo) => "pay_to"
    case TextKey(KaigiDomain) => "kaigi_domain"
    case TextKey(KaigiCallName) => "kaigi_call_name"
    case TextKey(KaigiPrivacyMode) => "kaigi_privacy_mode"
    case TextKey(Nonce) => "nonce"
    case TextKey(Signature) => "sig"
  }

  function KeyOf(text: string): Option<Key>
  {
    if text == "v" then Some(VersionKey)
    else if text == "relay" then Some(RelayKey)
    else if text == "channel" then Some(ChannelKey)
    else if text == "authenticated" then Some(AuthenticatedKey)
    else if text == "insecure" then Some(InsecureKey)
    else if text == "exp" then Some(ExpiryKey)
    else if text == "sni" then Some(TextKey(ServerName))
    else if text == "torii" then Some(TextKey(Torii))
    else if text == "pay_to" then Some(TextKey(PayTo))
    else if text == "kaigi_domain" then Some(TextKey(KaigiDomain))
    else if text == "kaigi_call_name" then Some(TextKey(KaigiCallName))
    else if text == "kaigi_privacy_mode" then Some(TextKey(KaigiPrivacyMode))
    else if text == "nonce" then Some(TextKey(Nonce))
    else if text == "sig" then Some(TextKey(Signature))
    else None
  }

  /** Each key goes by one name, and each name is that of one key at most. */
  lemma KeysAreDistinct(key: Key)
    ensures KeyOf(KeyText(key)) == Some(key)
    ensures forall text :: KeyOf(text) == Some(key) ==> text == KeyText(key)
  {
  }

  // ----- Printing -----

  type Param = (Key, string)

  const FRONT: seq<TextField> := [ServerName, Torii, PayTo, KaigiDomain, KaigiCallName, KaigiPrivacyMode]
  const BACK: seq<TextField> := [Nonce, Signature]

  function TextParams(texts: map<TextField, string>, fields: seq<TextField>): seq<Param>
  {
    if fields == [] then [] else
      (if fields[0] in texts then [(TextKey(fields[0]), texts[fields[0]])] else []) + TextParams(texts, fields[1..])
  }

  function Flag(b: bool): string
  {
    if b then "1" else "0"
  }

  function HeadParams<A>(env: Env<A>, link: JoinLink<A>): seq<Param>
  {
    [ (VersionKey, ToDecimal(link.version)),
      (RelayKey, env.printAddr(link.relay)),
      (ChannelKey, HexEncode(link.channel)),
      (AuthenticatedKey, Flag(link.authenticated)),
      (InsecureKey, Flag(link.insecure)) ]
  }

  function ExpiryParams(expiresAtMs: Option<u64>): seq<Param>
  {
    if expiresAtMs.Some? then [(ExpiryKey, ToDecimal(expiresAtMs.value))] else []
  }

  function Params<A>(env: Env<A>, link: JoinLink<A>): seq<Param>
  {
    HeadParams(env, link)
    + (TextParams(link.texts, FRONT) + (ExpiryParams(link.expiresAtMs) + TextParams(link.texts, BACK)))
  }

  function Piece(param: Param): string
  {
    PctEncoded(KeyText(param.0)) + ['='] + PctEncoded(param.1)
  }

  function Pieces(params: seq<Param>): (pieces: seq<string>)
    ensures |pieces| == |params|
    ensures forall i :: 0 <= i < |pieces| ==> pieces[i] == Piece(params[i])
  {
    seq(|params|, i requires 0 <= i < |params| => Piece(params[i]))
  }

  const SCHEME: string := "kaigi://join"

  function Rendered<A>(env: Env<A>, link: JoinLink<A>): string
  {
    SCHEME + ['?'] + Join(Pieces(Params(env, link)), '&')
  }

  // ----- Parsing -----

  datatype LinkError =
    | MissingQuery
    | UnsupportedScheme
    | BadPercent(error: PercentError)
    | BadVersion
    | BadRelay
    | BadChannel
    | BadFlag
    | BadExpiry
    | HalfCallMetadata
    | BadPrivacyMode
    | MissingRelay
    | MissingChannel
    | LegacyWithSecurityFields
    | MissingSecurityField
    | Expired
    | ExpiryTooFar
    | BadNonce
    | BadSignature
    | SignatureMismatch
    | UnsupportedVersion
    | Replay
    | CacheFull

  /** The parser's variables. */
  datatype Draft<+A> = Draft(
    version: u8,
    relay: Option<A>,
    channel: Option<seq<u8>>,
    authenticated: bool,
    insecure: bool,
    texts: map<TextField, string>,
    expiresAtMs: Option<u64>)

  function EmptyDraft<A>(): Draft<A>
  {
    Draft(VERSION_LEGACY, None, None, false, false, map[], None)
  }

  function ParseBoolish(raw: string): Option<bool>
  {
    var text := Text.AsciiLower(Text.Trim(raw));
    if text == "1" || text == "true" || text == "yes" || text == "on" then Some(true)
    else if text == "0" || text == "false" || text == "no" || text == "off" then Some(false)
    else None
  }

  function DecodeHex32(s: string): Option<seq<u8>>
  {
    var bytes := HexDecode(Text.Trim(s));
    if bytes.Some? && |bytes.value| == 32 then bytes else None
  }

  /** The arm of the parser for one known key. */
  function AcceptKey<A>(env: Env<A>, draft: Draft<A>, key: Key, value: string): Result<Draft<A>, LinkError>
  {
    match key
    case VersionKey =>
      var version := ParseUnsigned(value, 0xFF);
      if version.None? then Err(BadVersion) else Ok(draft.(version := version.value))
    case RelayKey =>
      var relay := env.parseAddr(value);
      if relay.None? then Err(BadRelay) else Ok(draft.(relay := relay))
    case ChannelKey =>
      var channel := DecodeHex32(value);
      if channel.None? then Err(BadChannel) else Ok(draft.(channel := channel))
    case AuthenticatedKey =>
      var flag := ParseBoolish(value);
      if flag.None? then Err(BadFlag) else Ok(draft.(authenticated := flag.value))
    case InsecureKey =>
      var flag := ParseBoolish(value);
      if flag.None? then Err(BadFlag) else Ok(draft.(insecure := flag.value))
    case ExpiryKey =>
      if value == "" then Ok(draft) else
        var expiry := ParseUnsigned(value, U64_MAX);
        if expiry.None? then Err(BadExpiry) else Ok(draft.(expiresAtMs := expiry))
    case TextKey(field) =>
      Ok(if value == "" then draft else draft.(texts := draft.texts[field := value]))
  }

  /** A piece before decoding: its key and its value, which is empty when the piece has no equals sign. */
  function RawPair(piece: string): (string, string)
  {
    var pair := SplitOnce(piece, '=');
    if pair.Some? then pair.value else (piece, "")
  }

  function Pair(piece: string): Result<(string, string), LinkError>
  {
    var (rawKey, rawValue) := RawPair(piece);
    match PctDecoded(rawKey)
    case Err(error) => Err(BadPercent(error))
    case Ok(keyText) =>
      match PctDecoded(rawValue)
      case Err(error) => Err(BadPercent(error))
      case Ok(value) => Ok((keyText, value))
  }

  function AcceptPiece<A>(env: Env<A>, draft: Draft<A>, piece: string): Result<Draft<A>, LinkError>
  {
    match Pair(piece)
    case Err(error) => Err(error)
    case Ok((keyText, value)) =>
      var key := KeyOf(keyText);
      if key.None? then Ok(draft) else AcceptKey(env, draft, key.value, value)
  }

  function AcceptPieces<A>(env: Env<A>, draft: Draft<A>, pieces: seq<string>): Result<Draft<A>, LinkError>
    decreases |pieces|
  {
    if pieces == [] then Ok(draft)
    else if pieces[0] == "" then AcceptPieces(env, draft, pieces[1..])
    else match AcceptPiece(env, draft, pieces[0])
         case Err(error) => Err(error)
         case Ok(next) => AcceptPieces(env, next, pieces[1..])
  }

  /** A privacy mode with its spelling evened out. */
  function NormalMode(mode: string): string
  {
    var text := Text.AsciiLower(Text.Trim(mode));
    seq(|text|, i requires 0 <= i < |text| => if text[i] == '-' then '_' else text[i])
  }

  predicate IsPrivacyMode(mode: string)
  {
    NormalMode(mode) == "transparent" || NormalMode(mode) == "zk" || NormalMode(mode) == "zk_roster_v1"
  }

  /** The mode a payload keeps: the roster mode is an older name of `zk`. */
  function KeptMode(mode: string): string
  {
    if NormalMode(mode) == "zk_roster_v1" then "zk" else NormalMode(mode)
  }

  /** The texts of a payload: the privacy mode, the nonce and the signature in normal form. */
  function NormalTexts(texts: map<TextField, string>): map<TextField, string>
  {
    map field | field in texts :: NormalText(field, texts[field])
  }

  function NormalText(field: TextField, text: string): string
  {
    match field
    case KaigiPrivacyMode => KeptMode(text)
    case Nonce => NormalizeHexArg(text)
    case Signature => NormalizeHexArg(text)
    case _ => text
  }

  /** The checks after the last pair, and the payload they admit. */
  function Finish<A>(draft: Draft<A>): Result<JoinLink<A>, LinkError>
  {
    if (KaigiDomain in draft.texts) != (KaigiCallName in draft.texts) then Err(HalfCallMetadata)
    else if KaigiPrivacyMode in draft.texts && !IsPrivacyMode(draft.texts[KaigiPrivacyMode]) then Err(BadPrivacyMode)
    else if draft.relay.None? then Err(MissingRelay)
    else if draft.channel.None? then Err(MissingChannel)
    else Ok(JoinLink(draft.version, draft.relay.value, draft.channel.value, draft.authenticated, draft.insecure,
                     NormalTexts(draft.texts), draft.expiresAtMs))
  }

  // ----- Signatures -----

  function TextOr(texts: map<TextField, string>, field: TextField): string
  {
    if field in texts then texts[field] else ""
  }

  /** The text that is signed. */
  function CanonicalText<A>(env: Env<A>, link: JoinLink<A>, expiresAtMs: u64, nonce: string): string
  {
    Join([ ToDecimal(link.version), env.printAddr(link.relay), HexEncode(link.channel),
           Flag(link.authenticated), Flag(link.insecure),
           TextOr(link.texts, ServerName), TextOr(link.texts, Torii), TextOr(link.texts, PayTo),
           TextOr(link.texts, KaigiDomain), TextOr(link.texts, KaigiCallName), TextOr(link.texts, KaigiPrivacyMode),
           ToDecimal(expiresAtMs), NormalizeHexArg(nonce) ], '|')
  }

  function SignatureOf<A>(env: Env<A>, link: JoinLink<A>, expiresAtMs: u64, nonce: string): string
  {
    HexEncode(env.digest("join_link_v2" + CanonicalText(env, link, expiresAtMs, nonce)))
  }

  /** The validity of a payload at a time: an error, or none. */
  function SecurityError<A>(env: Env<A>, link: JoinLink<A>, nowMs: u64): Option<LinkError>
  {
    if link.version == VERSION_LEGACY then
      if link.expiresAtMs.Some? || Nonce in link.texts || Signature in link.texts then Some(LegacyWithSecurityFields)
      else None
    else if link.version != VERSION_SIGNED then Some(UnsupportedVersion)
    else if link.expiresAtMs.None? || Nonce !in link.texts || Signature !in link.texts then Some(MissingSecurityField)
    else
      var expiresAtMs, nonce, signature := link.expiresAtMs.value, link.texts[Nonce], link.texts[Signature];
      if expiresAtMs <= nowMs then Some(Expired)
      else if expiresAtMs > SatU64(nowMs + MAX_EXPIRES_IN_SECS * 1000) then Some(ExpiryTooFar)
      else if |StripHexPrefix(nonce)| != NONCE_BYTES * 2 || HexDecode(StripHexPrefix(nonce)).None? then Some(BadNonce)
      else if |StripHexPrefix(signature)| != 64 || HexDecode(StripHexPrefix(signature)).None? then Some(BadSignature)
      else if SignatureOf(env, link, expiresAtMs, nonce) != NormalizeHexArg(signature) then Some(SignatureMismatch)
      else None
  }

  /** What follows the last pair: the payload's completeness and its validity at a time. */
  function Admitted<A>(env: Env<A>, draft: Draft<A>, nowMs: u64): Result<JoinLink<A>, LinkError>
  {
    var finished := Finish(draft);
    if finished.Err? then finished else
      var error := SecurityError(env, finished.value, nowMs);
      if error.Some? then Err(error.value) else finished
  }

  function AdmittedAfter<A>(env: Env<A>, read: Result<Draft<A>, LinkError>, nowMs: u64): Result<JoinLink<A>, LinkError>
  {
    match read
    case Err(error) => Err(error)
    case Ok(draft) => Admitted(env, draft, nowMs)
  }

  /** `parse_join_link_for_inspection` at a time. */
  function Parsed<A>(env: Env<A>, link: string, nowMs: u64): Result<JoinLink<A>, LinkError>
  {
    var split := SplitOnce(Text.Trim(link), '?');
    if split.None? then Err(MissingQuery)
    else if Text.AsciiLower(split.value.0) != SCHEME then Err(UnsupportedScheme)
    else AdmittedAfter(env, AcceptPieces(env, EmptyDraft(), Split(split.value.1, '&')), nowMs)
  }

  // ----- Issuing -----

  datatype IssueError = ExpiresInTooSmall | ExpiresInTooLarge | ExpiryOverflow

  /** `populate_join_link_security_fields` at a time, with the nonce drawn. */
  function Issued<A>(env: Env<A>, link: JoinLink<A>, expiresInSecs: u64, nowMs: u64,
                     nonce: seq<u8>): Result<JoinLink<A>, IssueError>
  {
    if link.version != VERSION_SIGNED then Ok(link)
    else if expiresInSecs == 0 then Err(ExpiresInTooSmall)
    else if expiresInSecs > MAX_EXPIRES_IN_SECS then Err(ExpiresInTooLarge)
    else
      var expiresAtMs: int := nowMs + expiresInSecs * 1000;
      if expiresAtMs > U64_MAX then Err(ExpiryOverflow) else
        var nonceHex := HexEncode(nonce);
        Ok(link.(expiresAtMs := Some(expiresAtMs),
                 texts := link.texts[Nonce := nonceHex][Signature := SignatureOf(env, link, expiresAtMs, nonceHex)]))
  }
}
