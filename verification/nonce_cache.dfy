/** The replay cache of consumed nonces, and the parsing of links with and without consuming them. */
module NonceCache {
  import opened Basics
  import opened Digits
  import opened Query
  import opened JoinLinks
  import Text

  const MAX_ENTRIES: nat := 4096

  type Seen = map<string, u64>

  /** The entries that have not expired at a time. */
  function Live(seen: Seen, nowMs: u64): Seen
  {
    map nonce | nonce in seen && seen[nonce] > nowMs :: seen[nonce]
  }

  /** `register_join_link_nonce_once` at a time: an error or none, and the cache left behind. */
  function Register(seen: Seen, nonceHex: string, expiresAtMs: u64, nowMs: u64): (Option<LinkError>, Seen)
  {
    var live, nonce := Live(seen, nowMs), NormalizeHexArg(nonceHex);
    if nonce in live then (Some(Replay), live)
    else if |live| >= MAX_ENTRIES then (Some(CacheFull), live)
    else (None, live[nonce := expiresAtMs])
  }

  /** Parsing that consumes the nonce; validation and registration read the clock separately. */
  function Consumed<A>(env: Env<A>, seen: Seen, link: string, validatedMs: u64,
                       registeredMs: u64): (Result<JoinLink<A>, LinkError>, Seen)
  {
    var parsed := Parsed(env, link, validatedMs);
    if parsed.Err? || parsed.value.version == VERSION_LEGACY then (parsed, seen) else
      AcceptedIsSigned(env, link, validatedMs);
      var (error, next) := Register(seen, parsed.value.texts[Nonce], parsed.value.expiresAtMs.value, registeredMs);
      (if error.Some? then Err(error.value) else parsed, next)
  }

  lemma AcceptedIsSigned<A>(env: Env<A>, link: string, nowMs: u64)
    ensures var parsed := Parsed(env, link, nowMs);
            parsed.Ok? && parsed.value.version != VERSION_LEGACY ==>
              Nonce in parsed.value.texts && parsed.value.expiresAtMs.Some? && nowMs < parsed.value.expiresAtMs.value
  {
  }

  class SeenNonces {
    var seen: Seen

    constructor ()
      ensures seen == map[]
    {
      seen := map[];
    }

    method RegisterOnce(nonceHex: string, expiresAtMs: u64, nowMs: u64) returns (error: Option<LinkError>)
      modifies this
      ensures (error, seen) == Register(old(seen), nonceHex, expiresAtMs, nowMs)
    {
      seen := map nonce | nonce in seen && seen[nonce] > nowMs :: seen[nonce];
      var normalized := NormalizeHexArg(nonceHex);
      if normalized in seen {
        return Some(Replay);
      }
      if |seen| >= MAX_ENTRIES {
        return Some(CacheFull);
      }
      seen := seen[normalized := expiresAtMs];
      return None;
    }

    /** `parse_join_link_with_mode`: one pass over the pairs of the query, then the final checks. */
    method ParseWithMode<A>(env: Env<A>, link: string, consume: bool, validatedMs: u64, registeredMs: u64)
      returns (r: Result<JoinLink<A>, LinkError>)
      modifies this
      ensures (r, seen) == if consume then Consumed(env, old(seen), link, validatedMs, registeredMs)
                           else (Parsed(env, link, validatedMs), old(seen))
    {
      var split := SplitOnce(Text.Trim(link), '?');
      if split.None? {
        return Err(MissingQuery);
      }
      if Text.AsciiLower(split.value.0) != SCHEME {
        return Err(UnsupportedScheme);
      }
      var pieces := Split(split.value.1, '&');
      var draft: Draft<A> := EmptyDraft();
      var i := 0;
      assert pieces[0..] == pieces;
      while i < |pieces|
        invariant 0 <= i <= |pieces|
        invariant AcceptPieces(env, draft, pieces[i..]) == AcceptPieces(env, EmptyDraft(), pieces)
        invariant seen == old(seen)
      {
        assert pieces[i..][1..] == pieces[i + 1..];
        if pieces[i] != "" {
          var accepted := AcceptPiece(env, draft, pieces[i]);
          if accepted.Err? {
            return Err(accepted.error);
          }
          draft := accepted.value;
        }
        i := i + 1;
      }
      assert pieces[i..] == [];
      var finished := Finish(draft);
      if finished.Err? {
        return finished;
      }
      var payload := finished.value;
      var error := SecurityError(env, payload, validatedMs);
      if error.Some? {
        return Err(error.value);
      }
      if consume && payload.version == VERSION_SIGNED {
        error := RegisterOnce(payload.texts[Nonce], payload.expiresAtMs.value, registeredMs);
        if error.Some? {
          return Err(error.value);
        }
      }
      return Ok(payload);
    }
  }

  /** `render_join_link`: the parameters pushed one by one, then encoded and joined. */
  method RenderJoinLink<A>(env: Env<A>, link: JoinLink<A>) returns (text: string)
    ensures text == Rendered(env, link)
  {
    var params: seq<Param> := HeadParams(env, link);
    params := PushTexts(params, link.texts, FRONT);
    if link.expiresAtMs.Some? {
      params := params + [(ExpiryKey, ToDecimal(link.expiresAtMs.value))];
    }
    params := PushTexts(params, link.texts, BACK);
    assert params == Params(env, link);
    text := SCHEME + ['?'] + Join(Pieces(params), '&');
  }

  method PushTexts(params: seq<Param>, texts: map<TextField, string>, fields: seq<TextField>) returns (out: seq<Param>)
    ensures out == params + TextParams(texts, fields)
  {
    out := params;
    assert fields[0..] == fields;
    for i := 0 to |fields|
      invariant out + TextParams(texts, fields[i..]) == params + TextParams(texts, fields)
    {
      assert fields[i..][1..] == fields[i + 1..];
      if fields[i] in texts {
        out := out + [(TextKey(fields[i]), texts[fields[i]])];
      }
    }
  }
}
