/** Whole conversations with the frame decoder: any interleaving of pushes and polls. */
module WireLaws {
  import opened Basics
  import opened Wire

  datatype Action = Push(data: seq<u8>) | TryNext

  /** The buffer and everything delivered and pushed so far. */
  datatype Progress<T> = Progress(buf: seq<u8>, delivered: seq<Item<T>>, pushed: seq<u8>)

  function Act<T>(codec: Codec<T>, p: Progress<T>, action: Action): Progress<T>
  {
    match action
    case Push(data) => Progress(p.buf + data, p.delivered, p.pushed + data)
    case TryNext => var (poll, rest) := Take(codec, p.buf); Progress(rest, p.delivered + Delivered(poll), p.pushed)
  }

  function Play<T>(codec: Codec<T>, start: Progress<T>, actions: seq<Action>): Progress<T>
  {
    if actions == [] then start else Act(codec, Play(codec, start, actions[..|actions| - 1]), actions[|actions| - 1])
  }

  function Fresh<T>(): Progress<T>
  {
    Progress([], [], [])
  }

  /** The streaming decoder refines the whole-buffer reading, under every interleaving of pushes and polls. */
  lemma {:induction false} StreamingRefinement<T>(codec: Codec<T>, actions: seq<Action>)
    ensures var p := Play(codec, Fresh(), actions); Explains(codec, p.delivered, p.buf, p.pushed)
  {
    if actions == [] {
    } else {
      var n := |actions| - 1;
      var before := Play(codec, Fresh(), actions[..n]);
      StreamingRefinement(codec, actions[..n]);
      match actions[n] {
        case Push(data) => PushExplains(codec, before.delivered, before.buf, before.pushed, data);
        case TryNext => TakeExplains(codec, before.delivered, before.buf, before.pushed);
      }
    }
  }

  /** The decoder says that it has nothing to deliver until more arrives. */
  predicate Drained<T>(codec: Codec<T>, p: Progress<T>)
  {
    Take(codec, p.buf).0 == Ok(None)
  }

  /**
   However a sequence of payloads is cut into pushes and mixed with polls, a decoder that was pushed exactly these
   payloads and is drained has delivered the meaning of each, in order, and holds no bytes. In particular a malformed
   payload costs one item and leaves its neighbours alone.
   */
  lemma DeliversEveryPayload<T>(codec: Codec<T>, payloads: seq<seq<u8>>, actions: seq<Action>)
    requires AllFit(payloads)
    requires var p := Play(codec, Fresh(), actions); p.pushed == Stream(payloads) && Drained(codec, p)
    ensures var p := Play(codec, Fresh(), actions); p.delivered == Meanings(codec, payloads) && p.buf == []
  {
    var p := Play(codec, Fresh(), actions);
    StreamingRefinement(codec, actions);
    assert Stream(payloads) + [] == Stream(payloads);
    ParseIsUnique(payloads, []);
    if !Stuck(p.buf) {
      TakeReads(codec, p.buf);
    }
    assert p.delivered + [] == p.delivered;
  }

  /** The payloads of frames that can be encoded within the limit. */
  function Payloads<T>(codec: Codec<T>, frames: seq<KaigiFrame<T>>): (payloads: seq<seq<u8>>)
    requires forall i :: 0 <= i < |frames| ==> codec.encode(frames[i]).Some?
    ensures |payloads| == |frames|
    ensures forall i :: 0 <= i < |frames| ==> payloads[i] == codec.encode(frames[i]).value
  {
    seq(|frames|, i requires 0 <= i < |frames| => codec.encode(frames[i]).value)
  }

  /** Frames written one after the other and cut anywhere are read back as they were, with nothing left over. */
  lemma FramesRoundTrip<T(!new)>(codec: Codec<T>, frames: seq<KaigiFrame<T>>, actions: seq<Action>)
    requires Lossless(codec)
    requires forall i :: 0 <= i < |frames| ==> codec.encode(frames[i]).Some?
    requires AllFit(Payloads(codec, frames))
    requires var p := Play(codec, Fresh(), actions); p.pushed == Stream(Payloads(codec, frames)) && Drained(codec, p)
    ensures var p := Play(codec, Fresh(), actions);
            && p.buf == []
            && |p.delivered| == |frames|
            && forall i :: 0 <= i < |frames| ==> p.delivered[i] == Frame(frames[i])
  {
    DeliversEveryPayload(codec, Payloads(codec, frames), actions);
  }

  // ----- Draining -----

  function Polls(n: nat): (actions: seq<Action>)
    ensures |actions| == n
  {
    seq(n, i => TryNext)
  }

  /** After as many polls as there are complete payloads, the buffer is stuck and everything complete was delivered. */
  lemma {:induction false} PollsDrain<T>(codec: Codec<T>, start: Progress<T>, n: nat)
    requires n <= |Parse(start.buf).payloads|
    ensures var (p, parsed) := (Play(codec, start, Polls(n)), Parse(start.buf));
            && Parse(p.buf) == Parsed(parsed.payloads[n..], parsed.rest)
            && p.delivered == start.delivered + Meanings(codec, parsed.payloads[..n])
            && p.pushed == start.pushed
  {
    var payloads := Parse(start.buf).payloads;
    if n == 0 {
      assert start.delivered + Meanings(codec, []) == start.delivered;
    } else {
      PollsDrain(codec, start, n - 1);
      assert Polls(n)[..n - 1] == Polls(n - 1);
      var before := Play(codec, start, Polls(n - 1));
      TakeReads(codec, before.buf);
      assert payloads[..n] == payloads[..n - 1] + [payloads[n - 1]];
      MeaningsConcat(codec, payloads[..n - 1], [payloads[n - 1]]);
      assert Meanings(codec, [payloads[n - 1]]) == [Meaning(codec, payloads[n - 1])];
      AppendAssoc(start.delivered, Meanings(codec, payloads[..n - 1]), [Meaning(codec, payloads[n - 1])]);
    }
  }

  /**
   Polled once per complete payload, the decoder has delivered each of them and keeps exactly the rest, which is shorter
   than one frame unless its header is oversized; the next poll says which.
   */
  lemma PollsDrainAll<T>(codec: Codec<T>, start: Progress<T>)
    ensures var parsed := Parse(start.buf);
            var p := Play(codec, start, Polls(|parsed.payloads|));
            && p.buf == parsed.rest && Stuck(p.buf)
            && p.delivered == start.delivered + Meanings(codec, parsed.payloads)
            && (Drained(codec, p) ==> |p.buf| < 4 + MAX_FRAME_LEN)
            && (!Drained(codec, p) ==> Take(codec, p.buf) == (Err(LengthTooLarge(DeclaredLength(p.buf))), p.buf))
  {
    var parsed := Parse(start.buf);
    var n := |parsed.payloads|;
    var p := Play(codec, start, Polls(n));
    PollsDrain(codec, start, n);
    ParseIsSound(start.buf);
    ParseIsSound(p.buf);
    assert parsed.payloads[n..] == [] && parsed.payloads[..n] == parsed.payloads;
    assert Stream(Parse(p.buf).payloads) + Parse(p.buf).rest == Parse(p.buf).rest;
    TakeFromStuck(codec, p.buf);
  }

  // ----- Oversized headers -----

  predicate Oversized(buf: seq<u8>)
  {
    |buf| >= 4 && DeclaredLength(buf) > MAX_FRAME_LEN
  }

  /**
   Behind an oversized header nothing is ever delivered again, whatever is pushed, and every poll fails the same way.
   */
  lemma {:induction false} OversizedForever<T>(codec: Codec<T>, start: Progress<T>, actions: seq<Action>)
    requires Oversized(start.buf)
    ensures var p := Play(codec, start, actions);
            && Oversized(p.buf) && start.buf <= p.buf && p.delivered == start.delivered
            && Take(codec, p.buf) == (Err(LengthTooLarge(DeclaredLength(start.buf))), p.buf)
  {
    if actions != [] {
      var n := |actions| - 1;
      OversizedForever(codec, start, actions[..n]);
      var before := Play(codec, start, actions[..n]);
      assert Play(codec, start, actions).buf[..4] == before.buf[..4] == start.buf[..4];
      TakeFromStuck(codec, before.buf);
      assert before.delivered + [] == before.delivered;
    }
  }

  // ----- One poll, byte by byte -----

  /** The four bytes in front of a frame, the most significant first. */
  lemma HeaderExactly(a: u8, b: u8, c: u8, d: u8, rest: seq<u8>)
    ensures DeclaredLength([a, b, c, d] + rest) == ((a * 0x100 + b) * 0x100 + c) * 0x100 + d
  {
    assert ([a, b, c, d] + rest)[..4] == [] + [a] + [b] + [c] + [d];
    OneMoreByte([], a);
    OneMoreByte([] + [a], b);
    OneMoreByte([] + [a] + [b], c);
    OneMoreByte([] + [a] + [b] + [c], d);
  }

  lemma OneMoreByte(high: seq<u8>, low: u8)
    ensures FromBigEndian(high + [low]) == FromBigEndian(high) * 0x100 + low
  {
    assert (high + [low])[..|high|] == high;
  }

  /**
   What one poll does with a header and the bytes behind it: no length makes an error frame, more than two mebibytes are
   refused for good, and a payload is decoded once all of it has arrived.
   */
  lemma PollExactly<T>(codec: Codec<T>, a: u8, b: u8, c: u8, d: u8, rest: seq<u8>)
    ensures var len, buf := ((a * 0x100 + b) * 0x100 + c) * 0x100 + d, [a, b, c, d] + rest;
            Take(codec, buf)
            == if len == 0 then (Ok(Some(KaigiFrame.Error("zero-length frame"))), rest)
               else if len > 2_097_152 then (Err(LengthTooLarge(len)), buf)
               else if |rest| < len then (Ok(None), buf)
               else match codec.decode(rest[..len])
                    case Some(frame) => (Ok(Some(frame)), rest[len..])
                    case None => (Err(DecodeFailed), rest[len..])
  {
    var len, buf := ((a * 0x100 + b) * 0x100 + c) * 0x100 + d, [a, b, c, d] + rest;
    HeaderExactly(a, b, c, d, rest);
    assert buf[4..] == rest;
    if len <= |rest| {
      assert buf[4..4 + len] == rest[..len] && buf[4 + len..] == rest[len..];
    }
  }
}
