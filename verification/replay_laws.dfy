/** Links are consumed at most once, as long as the second clock reading comes before their expiry. */
module ReplayLaws {
  import opened Basics
  import opened Digits
  import opened JoinLinks
  import opened NonceCache
  import opened Histories

  datatype Use = Consume(link: string, validatedMs: u64, registeredMs: u64) | Inspect(link: string, nowMs: u64)

  function Perform<A>(env: Env<A>, seen: Seen, use: Use): (Result<JoinLink<A>, LinkError>, Seen)
  {
    match use
    case Consume(link, validatedMs, registeredMs) => Consumed(env, seen, link, validatedMs, registeredMs)
    case Inspect(link, nowMs) => (Parsed(env, link, nowMs), seen)
  }

  /** The cache after a list of uses, starting from an empty one. */
  function CacheAfter<A>(env: Env<A>, uses: seq<Use>): Seen
  {
    if uses == [] then map[] else
      Perform(env, CacheAfter(env, uses[..|uses| - 1]), uses[|uses| - 1]).1
  }

  function ResultOf<A>(env: Env<A>, uses: seq<Use>, i: nat): Result<JoinLink<A>, LinkError>
    requires i < |uses|
  {
    Perform(env, CacheAfter(env, uses[..i]), uses[i]).0
  }

  // ----- The cache -----

  lemma PerformKeepsBound<A>(env: Env<A>, seen: Seen, use: Use)
    requires |seen| <= MAX_ENTRIES
    ensures |Perform(env, seen, use).1| <= MAX_ENTRIES
  {
    if use.Consume? {
      LiveIsNoLarger(seen, use.registeredMs);
    }
  }

  lemma LiveIsNoLarger(seen: Seen, nowMs: u64)
    ensures |Live(seen, nowMs)| <= |seen|
  {
    SubsetIsNoLarger(Live(seen, nowMs).Keys, seen.Keys);
  }

  lemma {:induction false} SubsetIsNoLarger<T>(a: set<T>, b: set<T>)
    requires a <= b
    ensures |a| <= |b|
  {
    if a != {} {
      var x :| x in a;
      SubsetIsNoLarger(a - {x}, b - {x});
    }
  }

  /** The cache never holds more than its limit. */
  lemma {:induction false} CacheIsBounded<A>(env: Env<A>, uses: seq<Use>)
    ensures |CacheAfter(env, uses)| <= MAX_ENTRIES
  {
    if uses != [] {
      CacheIsBounded(env, uses[..|uses| - 1]);
      PerformKeepsBound(env, CacheAfter(env, uses[..|uses| - 1]), uses[|uses| - 1]);
    }
  }

  /**
   Inspecting never changes the cache; consuming removes no entry but expired ones, adds at most the nonce it accepts,
   and changes no other entry.
   */
  lemma OnlyExpiredEntriesLeave<A>(env: Env<A>, seen: Seen, use: Use, nonce: string)
    ensures var (r, next) := Perform(env, seen, use);
            && (use.Inspect? ==> next == seen)
            && (nonce in seen && nonce !in next ==> use.Consume? && seen[nonce] <= use.registeredMs)
            && (nonce in seen && nonce in next && next[nonce] != seen[nonce] ==>
                  use.Consume? && seen[nonce] <= use.registeredMs)
            && (nonce !in seen && nonce in next ==>
                  && r.Ok? && r.value.version != VERSION_LEGACY && Nonce in r.value.texts
                  && nonce == NormalizeHexArg(r.value.texts[Nonce]) && Some(next[nonce]) == r.value.expiresAtMs)
  {
    UseTakes(env, seen, use);
    if Registers(env, use) {
      AcceptedIsSigned(env, use.link, use.validatedMs);
    }
  }

  // ----- Registrations -----

  /** A use that gets as far as registering a nonce: its link is signed and passes every other check. */
  predicate Registers<A>(env: Env<A>, use: Use)
  {
    use.Consume? && Parsed(env, use.link, use.validatedMs).Ok?
    && Parsed(env, use.link, use.validatedMs).value.version != VERSION_LEGACY
  }

  function UseNonce<A>(env: Env<A>, use: Use): string
    requires Registers(env, use)
  {
    AcceptedIsSigned(env, use.link, use.validatedMs);
    NormalizeHexArg(Parsed(env, use.link, use.validatedMs).value.texts[Nonce])
  }

  function UseExpiry<A>(env: Env<A>, use: Use): (expiresAtMs: u64)
    requires Registers(env, use)
    ensures use.validatedMs < expiresAtMs
  {
    AcceptedIsSigned(env, use.link, use.validatedMs);
    Parsed(env, use.link, use.validatedMs).value.expiresAtMs.value
  }

  /** A cache takes a nonce at a time: it holds it no longer unexpired, and has room beside its unexpired entries. */
  predicate Takes(seen: Seen, nonce: string, nowMs: u64)
  {
    (nonce !in seen || seen[nonce] <= nowMs) && |Live(seen, nowMs)| < 4096
  }

  /** A nonce that is not taken was used before, or else the cache is full. */
  function Refusal(seen: Seen, nonce: string, nowMs: u64): LinkError
  {
    if nonce in seen && nowMs < seen[nonce] then Replay else CacheFull
  }

  lemma RegisterTakes(seen: Seen, nonceHex: string, expiresAtMs: u64, nowMs: u64)
    ensures var (error, next), nonce := Register(seen, nonceHex, expiresAtMs, nowMs), NormalizeHexArg(nonceHex);
            && error == (if Takes(seen, nonce, nowMs) then None else Some(Refusal(seen, nonce, nowMs)))
            && next == if Takes(seen, nonce, nowMs) then Live(seen, nowMs)[nonce := expiresAtMs] else Live(seen, nowMs)
  {
  }

  /**
   A registering use succeeds exactly if the cache takes its nonce, and is refused for a replay or for want of room
   otherwise; any other use leaves the cache alone.
   */
  lemma UseTakes<A>(env: Env<A>, seen: Seen, use: Use)
    ensures var (r, next) := Perform(env, seen, use);
            if !Registers(env, use) then next == seen
            else
              var nonce, nowMs := UseNonce(env, use), use.registeredMs;
              && r == (if Takes(seen, nonce, nowMs) then Parsed(env, use.link, use.validatedMs)
                       else Err(Refusal(seen, nonce, nowMs)))
              && next == if Takes(seen, nonce, nowMs) then Live(seen, nowMs)[nonce := UseExpiry(env, use)]
                         else Live(seen, nowMs)
  {
    if Registers(env, use) {
      AcceptedIsSigned(env, use.link, use.validatedMs);
      var link := Parsed(env, use.link, use.validatedMs).value;
      RegisterTakes(seen, link.texts[Nonce], link.expiresAtMs.value, use.registeredMs);
    }
  }

  // ----- What the cache holds -----

  /** A use that consumed a signed link. */
  predicate Consumes<A>(env: Env<A>, uses: seq<Use>, i: nat)
    requires i < |uses|
  {
    uses[i].Consume? && ResultOf(env, uses, i).Ok? && ResultOf(env, uses, i).value.version != VERSION_LEGACY
  }

  lemma ConsumesIfTaken<A>(env: Env<A>, uses: seq<Use>, i: nat)
    requires i < |uses|
    ensures Consumes(env, uses, i) <==>
            Registers(env, uses[i])
            && Takes(CacheAfter(env, uses[..i]), UseNonce(env, uses[i]), uses[i].registeredMs)
    ensures Consumes(env, uses, i) ==> ResultOf(env, uses, i) == Parsed(env, uses[i].link, uses[i].validatedMs)
  {
    UseTakes(env, CacheAfter(env, uses[..i]), uses[i]);
  }

  predicate HasEntry(seen: Seen, nonce: string, expiresAtMs: u64)
  {
    nonce in seen && seen[nonce] == expiresAtMs
  }

  lemma NextCache<A>(env: Env<A>, uses: seq<Use>, j: nat)
    requires j < |uses|
    ensures CacheAfter(env, uses[..j + 1]) == Perform(env, CacheAfter(env, uses[..j]), uses[j]).1
  {
    assert uses[..j + 1][..j] == uses[..j];
  }

  /** An entry is in the cache after a use if the use put it there, or it was there and the use did not evict it. */
  lemma EntryStep<A>(env: Env<A>, uses: seq<Use>, j: nat, nonce: string, expiresAtMs: u64)
    requires j < |uses|
    ensures HasEntry(CacheAfter(env, uses[..j + 1]), nonce, expiresAtMs) <==>
            || Enters(env, uses, j, nonce, expiresAtMs)
            || (&& HasEntry(CacheAfter(env, uses[..j]), nonce, expiresAtMs)
                && !Evicts(env, uses[j], expiresAtMs))
  {
    NextCache(env, uses, j);
    UseTakes(env, CacheAfter(env, uses[..j]), uses[j]);
    ConsumesIfTaken(env, uses, j);
  }

  /** The i-th use consumed a nonce with an expiry. */
  predicate Enters<A>(env: Env<A>, uses: seq<Use>, i: nat, nonce: string, expiresAtMs: u64)
    requires i < |uses|
  {
    && Consumes(env, uses, i) && Registers(env, uses[i])
    && UseNonce(env, uses[i]) == nonce && UseExpiry(env, uses[i]) == expiresAtMs
  }

  /** Which uses consumed a nonce with an expiry. */
  function Entries<A>(env: Env<A>, uses: seq<Use>, nonce: string, expiresAtMs: u64): (entries: seq<bool>)
    ensures |entries| == |uses|
    ensures forall i :: 0 <= i < |uses| ==> entries[i] == Enters(env, uses, i, nonce, expiresAtMs)
  {
    seq(|uses|, i requires 0 <= i < |uses| => Enters(env, uses, i, nonce, expiresAtMs))
  }

  /** Which uses registered with a reading at or after a time. */
  function Evictions<A>(env: Env<A>, uses: seq<Use>, timeMs: u64): (evictions: seq<bool>)
    ensures |evictions| == |uses|
    ensures forall i :: 0 <= i < |uses| ==> evictions[i] == Evicts(env, uses[i], timeMs)
  {
    seq(|uses|, i requires 0 <= i < |uses| => Evicts(env, uses[i], timeMs))
  }

  predicate Evicts<A>(env: Env<A>, use: Use, timeMs: u64)
  {
    Registers(env, use) && timeMs <= use.registeredMs
  }

  /**
   The cache holds an entry exactly if some use consumed it and no registration since read the clock at or after its
   expiry.
   */
  lemma {:induction false} CacheHistory<A>(env: Env<A>, uses: seq<Use>, j: nat, nonce: string, expiresAtMs: u64)
    requires j <= |uses|
    ensures HasEntry(CacheAfter(env, uses[..j]), nonce, expiresAtMs)
            <==> Since(Entries(env, uses, nonce, expiresAtMs), Evictions(env, uses, expiresAtMs), j)
  {
    if j > 0 {
      CacheHistory(env, uses, j - 1, nonce, expiresAtMs);
      EntryStep(env, uses, j - 1, nonce, expiresAtMs);
      SinceStep(Entries(env, uses, nonce, expiresAtMs), Evictions(env, uses, expiresAtMs), j - 1);
    }
  }

  // ----- At most once -----

  /** Some registration after the i-th use, up to the j-th, read the clock at or after a time. */
  ghost predicate ReadBetween<A>(env: Env<A>, uses: seq<Use>, i: nat, j: nat, timeMs: u64)
    requires i < j < |uses|
  {
    exists k :: i < k <= j && Evicts(env, uses[k], timeMs)
  }

  /**
   A registering use consumes its nonce exactly if the cache has room and, for every earlier use that consumed the same
   nonce, some registration since, its own included, read the clock at or after the expiry of that use's link. Uses are
   listed in the order they take the cache's lock; their clock readings may come in any order.
   */
  lemma ConsumedExactly<A>(env: Env<A>, uses: seq<Use>, j: nat)
    requires j < |uses| && Registers(env, uses[j])
    ensures Consumes(env, uses, j) <==>
            && |Live(CacheAfter(env, uses[..j]), uses[j].registeredMs)| < MAX_ENTRIES
            && forall i :: 0 <= i < j && ConsumesToo(env, uses, i, UseNonce(env, uses[j])) ==>
                 ReadBetween(env, uses, i, j, UseExpiry(env, uses[i]))
  {
    var nonce, seen, nowMs := UseNonce(env, uses[j]), CacheAfter(env, uses[..j]), uses[j].registeredMs;
    ConsumesIfTaken(env, uses, j);
    if nonce !in seen || seen[nonce] <= nowMs {
      forall i | 0 <= i < j && ConsumesToo(env, uses, i, nonce)
        ensures ReadBetween(env, uses, i, j, UseExpiry(env, uses[i]))
      {
        TakenAfterReading(env, uses, i, j);
      }
    } else {
      var i := HeldWithoutReading(env, uses, j);
    }
  }

  lemma TakenAfterReading<A>(env: Env<A>, uses: seq<Use>, i: nat, j: nat)
    requires i < j < |uses| && Registers(env, uses[j]) && ConsumesToo(env, uses, i, UseNonce(env, uses[j]))
    requires var nonce, seen := UseNonce(env, uses[j]), CacheAfter(env, uses[..j]);
             nonce !in seen || seen[nonce] <= uses[j].registeredMs
    ensures ReadBetween(env, uses, i, j, UseExpiry(env, uses[i]))
  {
    var nonce, expiry := UseNonce(env, uses[j]), UseExpiry(env, uses[i]);
    var entries, evictions := Entries(env, uses, nonce, expiry), Evictions(env, uses, expiry);
    CacheHistory(env, uses, j, nonce, expiry);
    if StartedAt(entries, evictions, i, j) {
      assert Evicts(env, uses[j], expiry);
    } else {
      var k :| i < k < j && evictions[k];
      assert Evicts(env, uses[k], expiry);
    }
  }

  /** A nonce held unexpired was consumed by some use, and no registration since read the clock at its expiry. */
  lemma HeldWithoutReading<A>(env: Env<A>, uses: seq<Use>, j: nat) returns (i: nat)
    requires j < |uses| && Registers(env, uses[j])
    requires var nonce, seen := UseNonce(env, uses[j]), CacheAfter(env, uses[..j]);
             nonce in seen && uses[j].registeredMs < seen[nonce]
    ensures i < j && ConsumesToo(env, uses, i, UseNonce(env, uses[j]))
    ensures !ReadBetween(env, uses, i, j, UseExpiry(env, uses[i]))
  {
    var nonce := UseNonce(env, uses[j]);
    var expiry := CacheAfter(env, uses[..j])[nonce];
    i := Holder(env, uses, j, nonce, expiry);
    NoReading(env, uses, i, j, expiry);
  }

  lemma Holder<A>(env: Env<A>, uses: seq<Use>, j: nat, nonce: string, expiresAtMs: u64) returns (i: nat)
    requires j <= |uses| && HasEntry(CacheAfter(env, uses[..j]), nonce, expiresAtMs)
    ensures i < j && Enters(env, uses, i, nonce, expiresAtMs)
    ensures forall k :: i < k < j ==> !Evictions(env, uses, expiresAtMs)[k]
  {
    var entries, evictions := Entries(env, uses, nonce, expiresAtMs), Evictions(env, uses, expiresAtMs);
    CacheHistory(env, uses, j, nonce, expiresAtMs);
    i :| 0 <= i < j && StartedAt(entries, evictions, i, j);
  }

  lemma NoReading<A>(env: Env<A>, uses: seq<Use>, i: nat, j: nat, timeMs: u64)
    requires i < j < |uses| && !Evicts(env, uses[j], timeMs)
    requires forall k :: i < k < j ==> !Evictions(env, uses, timeMs)[k]
    ensures !ReadBetween(env, uses, i, j, timeMs)
  {
    var evictions := Evictions(env, uses, timeMs);
    assert forall k :: i < k < j ==> evictions[k] == Evicts(env, uses[k], timeMs);
  }

  /** The i-th use consumed a nonce. */
  ghost predicate ConsumesToo<A>(env: Env<A>, uses: seq<Use>, i: nat, nonce: string)
    requires i < |uses|
    ensures ConsumesToo(env, uses, i, nonce) ==> Registers(env, uses[i])
  {
    Consumes(env, uses, i) && Registers(env, uses[i]) && UseNonce(env, uses[i]) == nonce
  }

  /**
   A nonce that was consumed is consumed again, by the same link or by any other, only after some registration read the
   clock at or after the expiry of the link that consumed it first.
   */
  lemma NonceAtMostOnce<A>(env: Env<A>, uses: seq<Use>, i: nat, j: nat)
    requires i < j < |uses|
    requires Consumes(env, uses, i) && Consumes(env, uses, j)
    requires NonceOf(env, uses, i) == NonceOf(env, uses, j)
    ensures ResultOf(env, uses, i).value.expiresAtMs.Some?
    ensures ReadBetween(env, uses, i, j, ResultOf(env, uses, i).value.expiresAtMs.value)
  {
    ConsumesIfTaken(env, uses, i);
    ConsumesIfTaken(env, uses, j);
    ConsumedExactly(env, uses, j);
    assert ConsumesToo(env, uses, i, UseNonce(env, uses[j]));
  }

  /** The nonce a use consumed. */
  ghost function NonceOf<A>(env: Env<A>, uses: seq<Use>, i: nat): string
    requires i < |uses| && Consumes(env, uses, i)
  {
    ConsumesIfTaken(env, uses, i);
    UseNonce(env, uses[i])
  }

  /** The payload of a link does not depend on when it is accepted. */
  lemma PayloadIsTimeless<A>(env: Env<A>, link: string, a: u64, b: u64)
    requires Parsed(env, link, a).Ok? && Parsed(env, link, b).Ok?
    ensures Parsed(env, link, a) == Parsed(env, link, b)
  {
  }

  /** In particular a signed link is consumed again only before its expiry, and only after such a registration. */
  lemma AtMostOnce<A>(env: Env<A>, uses: seq<Use>, i: nat, j: nat)
    requires i < j < |uses|
    requires uses[i].Consume? && uses[j].Consume? && uses[i].link == uses[j].link
    requires Consumes(env, uses, i) && Consumes(env, uses, j)
    ensures ResultOf(env, uses, i) == ResultOf(env, uses, j)
    ensures ResultOf(env, uses, i).value.expiresAtMs.Some?
    ensures uses[j].validatedMs < ResultOf(env, uses, i).value.expiresAtMs.value
    ensures ReadBetween(env, uses, i, j, ResultOf(env, uses, i).value.expiresAtMs.value)
  {
    ConsumesIfTaken(env, uses, i);
    ConsumesIfTaken(env, uses, j);
    PayloadIsTimeless(env, uses[i].link, uses[i].validatedMs, uses[j].validatedMs);
    AcceptedIsSigned(env, uses[j].link, uses[j].validatedMs);
    NonceAtMostOnce(env, uses, i, j);
  }

  // ----- Uses one after the other -----

  function FirstReading(use: Use): u64
  {
    if use.Consume? then use.validatedMs else use.nowMs
  }

  function LastReading(use: Use): u64
  {
    if use.Consume? then use.registeredMs else use.nowMs
  }

  /** The clock never runs back, within a use or between uses that follow one another. */
  ghost predicate ClockMonotone(uses: seq<Use>)
  {
    && (forall i :: 0 <= i < |uses| ==> FirstReading(uses[i]) <= LastReading(uses[i]))
    && (forall i, j :: 0 <= i < j < |uses| ==> LastReading(uses[i]) <= FirstReading(uses[j]))
  }

  /** When uses follow one another on a clock that never runs back, the second use registers at or after the expiry. */
  lemma AtMostOnceInSequence<A>(env: Env<A>, uses: seq<Use>, i: nat, j: nat)
    requires i < j < |uses| && ClockMonotone(uses)
    requires Consumes(env, uses, i) && Consumes(env, uses, j)
    requires NonceOf(env, uses, i) == NonceOf(env, uses, j)
    ensures ResultOf(env, uses, i).value.expiresAtMs.Some?
    ensures ResultOf(env, uses, i).value.expiresAtMs.value <= uses[j].registeredMs
  {
    NonceAtMostOnce(env, uses, i, j);
    ReadInSequence(env, uses, i, j, ResultOf(env, uses, i).value.expiresAtMs.value);
  }

  lemma ReadInSequence<A>(env: Env<A>, uses: seq<Use>, i: nat, j: nat, timeMs: u64)
    requires i < j < |uses| && ClockMonotone(uses) && uses[j].Consume? && ReadBetween(env, uses, i, j, timeMs)
    ensures timeMs <= uses[j].registeredMs
  {
    var k :| i < k <= j && Evicts(env, uses[k], timeMs);
    LaterReading(uses, k, j);
  }

  lemma LaterReading(uses: seq<Use>, k: nat, j: nat)
    requires k <= j < |uses| && ClockMonotone(uses)
    ensures LastReading(uses[k]) <= LastReading(uses[j])
  {
    assert k < j ==> LastReading(uses[k]) <= FirstReading(uses[j]) <= LastReading(uses[j]);
  }

  // ----- When a link is consumed twice -----

  lemma EmptyCacheTakes(nonce: string, nowMs: u64)
    ensures Live(map[], nowMs) == map[] && Takes(map[], nonce, nowMs)
  {
    assert Live(map[], nowMs) == map[];
  }

  lemma OneEntryTakes(held: string, expiresAtMs: u64, nonce: string, nowMs: u64)
    ensures Takes(map[held := expiresAtMs], nonce, nowMs) <==> held != nonce || expiresAtMs <= nowMs
    ensures expiresAtMs <= nowMs ==> Live(map[held := expiresAtMs], nowMs) == map[]
  {
    var live := Live(map[held := expiresAtMs], nowMs);
    assert live.Keys <= {held};
    SubsetIsNoLarger(live.Keys, {held});
  }

  lemma FirstUse<A>(env: Env<A>, first: Use)
    requires Registers(env, first)
    ensures CacheAfter(env, []) == map[]
    ensures CacheAfter(env, [first]) == map[UseNonce(env, first) := UseExpiry(env, first)]
  {
    EmptyCacheTakes(UseNonce(env, first), first.registeredMs);
    UseTakes(env, map[], first);
    assert [first][..0] == [];
  }

  lemma FirstUseConsumes<A>(env: Env<A>, uses: seq<Use>)
    requires uses != [] && Registers(env, uses[0])
    ensures Consumes(env, uses, 0)
  {
    assert uses[..0] == [];
    EmptyCacheTakes(UseNonce(env, uses[0]), uses[0].registeredMs);
    ConsumesIfTaken(env, uses, 0);
  }

  /** Of two accepted uses of a signed link the second consumes it again exactly if it registers from the expiry on. */
  lemma SecondReadingMatters<A>(env: Env<A>, first: Use, second: Use)
    requires Registers(env, first) && Registers(env, second) && first.link == second.link
    ensures Consumes(env, [first, second], 0)
    ensures Consumes(env, [first, second], 1) <==> UseExpiry(env, first) <= second.registeredMs
  {
    var uses := [first, second];
    FirstUseConsumes(env, uses);
    assert uses[..1] == [first];
    FirstUse(env, first);
    PayloadIsTimeless(env, first.link, first.validatedMs, second.validatedMs);
    OneEntryTakes(UseNonce(env, first), UseExpiry(env, first), UseNonce(env, second), second.registeredMs);
    ConsumesIfTaken(env, uses, 1);
  }

  /**
   Such pairs exist for every signed link, on a clock that never runs back: validating before the expiry and registering
   from the expiry on.
   */
  lemma LateRegistration<A>(env: Env<A>, link: string, firstMs: u64, validatedMs: u64, registeredMs: u64)
    requires Registers(env, Consume(link, firstMs, firstMs))
    requires var expiresAtMs := UseExpiry(env, Consume(link, firstMs, firstMs));
             firstMs <= validatedMs < expiresAtMs <= registeredMs
    ensures var uses := [Consume(link, firstMs, firstMs), Consume(link, validatedMs, registeredMs)];
            ClockMonotone(uses) && Consumes(env, uses, 0) && Consumes(env, uses, 1)
  {
    var first, second := Consume(link, firstMs, firstMs), Consume(link, validatedMs, registeredMs);
    StaysAccepted(env, link, firstMs, validatedMs);
    SecondReadingMatters(env, first, second);
  }

  /**
   A use of another link that registers at or after the expiry evicts the entry. A later use of the first link that
   read the clock before the expiry then consumes it again, whatever its registration reads.
   */
  lemma LateLock<A>(env: Env<A>, first: Use, other: Use, late: Use)
    requires Registers(env, first) && Registers(env, other) && Registers(env, late) && first.link == late.link
    requires UseNonce(env, other) != UseNonce(env, first) && UseExpiry(env, first) <= other.registeredMs
    ensures var uses := [first, other, late];
            Consumes(env, uses, 0) && Consumes(env, uses, 1) && Consumes(env, uses, 2)
  {
    var uses := [first, other, late];
    FirstUseConsumes(env, uses);
    assert uses[..1] == [first] && uses[..2] == [first, other] && [first, other][..1] == [first];
    FirstUse(env, first);
    var held := map[UseNonce(env, first) := UseExpiry(env, first)];
    OneEntryTakes(UseNonce(env, first), UseExpiry(env, first), UseNonce(env, other), other.registeredMs);
    ConsumesIfTaken(env, uses, 1);
    UseTakes(env, held, other);
    NextCache(env, uses, 1);
    PayloadIsTimeless(env, first.link, first.validatedMs, late.validatedMs);
    assert CacheAfter(env, uses[..2]) == map[UseNonce(env, other) := UseExpiry(env, other)];
    OneEntryTakes(UseNonce(env, other), UseExpiry(env, other), UseNonce(env, late), late.registeredMs);
    ConsumesIfTaken(env, uses, 2);
  }

  /** A signed link that is accepted stays accepted until it expires. */
  lemma StaysAccepted<A>(env: Env<A>, link: string, firstMs: u64, laterMs: u64)
    requires Parsed(env, link, firstMs).Ok? && Parsed(env, link, firstMs).value.version != VERSION_LEGACY
    requires Parsed(env, link, firstMs).value.expiresAtMs.Some?
    requires firstMs <= laterMs < Parsed(env, link, firstMs).value.expiresAtMs.value
    ensures Parsed(env, link, laterMs) == Parsed(env, link, firstMs)
  {
  }
}
