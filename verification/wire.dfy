/**
 Length-prefixed frames over a byte stream: the encoder, the incremental decoder, and what the decoder emits under
 every way of cutting the stream into chunks and every interleaving of pushes and polls.
 */
module Wire {
  import opened Basics

  const MAX_FRAME_LEN: nat := 2 * 1024 * 1024

  /** A frame, of which the framing layer itself only ever builds errors. */
  datatype KaigiFrame<+T> = Error(message: string) | Content(content: T)

  /** The payload serialisation, which this layer takes as given. */
  datatype Codec<!T> = Codec(
    encode: KaigiFrame<T> -> Option<seq<u8>>,
    decode: seq<u8> -> Option<KaigiFrame<T>>)

  /** A lossless serialisation without empty output. */
  ghost predicate Lossless<T(!new)>(codec: Codec<T>)
  {
    forall f :: codec.encode(f).Some? ==>
      codec.encode(f).value != [] && codec.decode(codec.encode(f).value) == Some(f)
  }

  // ----- The length prefix -----

  /** How many values `k` bytes can express. */
  function Bound(k: nat): nat
  {
    if k == 0 then 1 else 0x100 * Bound(k - 1)
  }

  /** The low `k` bytes of a number, the most significant first. */
  function BigEndian(n: nat, k: nat): (b: seq<u8>)
    ensures |b| == k
  {
    if k == 0 then [] else BigEndian(n / 0x100, k - 1) + [n % 0x100]
  }

  function FromBigEndian(b: seq<u8>): (n: nat)
    ensures n < Bound(|b|)
  {
    if b == [] then 0 else
      var low: int := b[|b| - 1];
      FromBigEndian(b[..|b| - 1]) * 0x100 + low
  }

  lemma {:induction false} BigEndianRoundTrip(n: nat, k: nat)
    requires n < Bound(k)
    ensures FromBigEndian(BigEndian(n, k)) == n
  {
    if k > 0 {
      var high := BigEndian(n / 0x100, k - 1);
      assert (high + [n % 0x100])[..k - 1] == high;
      BigEndianRoundTrip(n / 0x100, k - 1);
    }
  }

  lemma {:induction false} BigEndianIsOnto(b: seq<u8>)
    ensures BigEndian(FromBigEndian(b), |b|) == b
  {
    if b != [] {
      BigEndianIsOnto(b[..|b| - 1]);
      assert b == b[..|b| - 1] + [b[|b| - 1]];
    }
  }

  lemma FourBytes()
    ensures Bound(4) == 0x1_0000_0000
  {
    assert Bound(1) == 0x100 && Bound(2) == 0x1_0000 && Bound(3) == 0x100_0000;
  }

  /** The length a frame header declares. */
  function DeclaredLength(b: seq<u8>): nat
    requires |b| >= 4
  {
    FromBigEndian(b[..4])
  }

  // ----- Encoding -----

  datatype WireError = EncodeFailed | FrameTooLarge(len: nat) | LengthTooLarge(declared: nat) | DecodeFailed

  /** What one frame looks like on the wire. */
  function Framed(payload: seq<u8>): seq<u8>
  {
    BigEndian(|payload|, 4) + payload
  }

  method EncodeFramed<T>(codec: Codec<T>, frame: KaigiFrame<T>) returns (r: Result<seq<u8>, WireError>)
    ensures r == match codec.encode(frame)
                 case None => Err(EncodeFailed)
                 case Some(payload) =>
                   if |payload| > MAX_FRAME_LEN then Err(FrameTooLarge(|payload|)) else Ok(Framed(payload))
  {
    var encoded := codec.encode(frame);
    if encoded.None? {
      return Err(EncodeFailed);
    }
    var payload := encoded.value;
    if |payload| > MAX_FRAME_LEN {
      return Err(FrameTooLarge(|payload|));
    }
    var out: seq<u8> := [];
    out := out + BigEndian(|payload|, 4);
    out := out + payload;
    assert out == Framed(payload);
    return Ok(out);
  }

  // ----- A whole-buffer reading of a stream -----

  /** Payloads written one after the other. */
  function Stream(payloads: seq<seq<u8>>): seq<u8>
  {
    if payloads == [] then [] else Framed(payloads[0]) + Stream(payloads[1..])
  }

  /** No complete frame can be taken off the front of these bytes: too few of them, or a length beyond the limit. */
  predicate Stuck(bytes: seq<u8>)
  {
    |bytes| < 4 || DeclaredLength(bytes) > MAX_FRAME_LEN || |bytes| < 4 + DeclaredLength(bytes)
  }

  ghost predicate AllFit(payloads: seq<seq<u8>>)
  {
    forall i :: 0 <= i < |payloads| ==> |payloads[i]| <= MAX_FRAME_LEN
  }

  datatype Parsed = Parsed(payloads: seq<seq<u8>>, rest: seq<u8>)

  /** The payloads complete in a buffer and the bytes left over. */
  function Parse(bytes: seq<u8>): Parsed
    decreases |bytes|
  {
    if Stuck(bytes) then Parsed([], bytes) else
      var len := DeclaredLength(bytes);
      var tail := Parse(bytes[4 + len..]);
      Parsed([bytes[4..4 + len]] + tail.payloads, tail.rest)
  }

  lemma AppendAssoc<X>(a: seq<X>, b: seq<X>, c: seq<X>)
    ensures (a + b) + c == a + (b + c)
  {
  }

  lemma FrameGoesBack(bytes: seq<u8>)
    requires !Stuck(bytes)
    ensures var len := DeclaredLength(bytes); Framed(bytes[4..4 + len]) + bytes[4 + len..] == bytes
  {
    BigEndianIsOnto(bytes[..4]);
  }

  /** Parsing cuts the buffer into frames within the limit and a stuck rest, and loses no byte. */
  lemma {:induction false} ParseIsSound(bytes: seq<u8>)
    ensures AllFit(Parse(bytes).payloads) && Stuck(Parse(bytes).rest)
    ensures Stream(Parse(bytes).payloads) + Parse(bytes).rest == bytes
    decreases |bytes|
  {
    if !Stuck(bytes) {
      var len := DeclaredLength(bytes);
      var payload, tail := bytes[4..4 + len], bytes[4 + len..];
      var q := Parse(tail);
      ParseIsSound(tail);
      FrameGoesBack(bytes);
      assert ([payload] + q.payloads)[1..] == q.payloads;
      calc {
        Stream(Parse(bytes).payloads) + Parse(bytes).rest;
        (Framed(payload) + Stream(q.payloads)) + q.rest;
        { AppendAssoc(Framed(payload), Stream(q.payloads), q.rest); }
        Framed(payload) + tail;
        bytes;
      }
    }
  }

  /** A framed payload at the front of a buffer can be told from what follows. */
  lemma FrameComesOff(payload: seq<u8>, tail: seq<u8>)
    requires |payload| <= MAX_FRAME_LEN
    ensures var bytes := Framed(payload) + tail;
            && !Stuck(bytes) && DeclaredLength(bytes) == |payload|
            && bytes[4..4 + |payload|] == payload && bytes[4 + |payload|..] == tail
  {
    FourBytes();
    BigEndianRoundTrip(|payload|, 4);
    assert (Framed(payload) + tail)[..4] == BigEndian(|payload|, 4);
  }

  /** A stream can be cut into payloads and a stuck rest in one way only, the way `Parse` cuts it. */
  lemma {:induction false} ParseIsUnique(payloads: seq<seq<u8>>, rest: seq<u8>)
    requires AllFit(payloads) && Stuck(rest)
    ensures Parse(Stream(payloads) + rest) == Parsed(payloads, rest)
  {
    if payloads == [] {
      assert Stream(payloads) + rest == rest;
    } else {
      var tail := Stream(payloads[1..]) + rest;
      AppendAssoc(Framed(payloads[0]), Stream(payloads[1..]), rest);
      FrameComesOff(payloads[0], tail);
      ParseIsUnique(payloads[1..], rest);
    }
  }

  lemma {:induction false} StreamConcat(first: seq<seq<u8>>, second: seq<seq<u8>>)
    ensures Stream(first + second) == Stream(first) + Stream(second)
  {
    if first == [] {
      assert first + second == second;
    } else {
      assert (first + second)[1..] == first[1..] + second;
      StreamConcat(first[1..], second);
      AppendAssoc(Framed(first[0]), Stream(first[1..]), Stream(second));
    }
  }

  /** Bytes arriving later only add payloads: parsing may stop and resume at any point. */
  lemma ParseResumes(bytes: seq<u8>, more: seq<u8>)
    ensures var p, q := Parse(bytes), Parse(Parse(bytes).rest + more);
            Parse(bytes + more) == Parsed(p.payloads + q.payloads, q.rest)
  {
    var p, q := Parse(bytes), Parse(Parse(bytes).rest + more);
    ParseIsSound(bytes);
    ParseIsSound(p.rest + more);
    StreamConcat(p.payloads, q.payloads);
    AppendAssoc(Stream(p.payloads), p.rest, more);
    AppendAssoc(Stream(p.payloads), Stream(q.payloads), q.rest);
    ParseIsUnique(p.payloads + q.payloads, q.rest);
  }

  // ----- Decoding -----

  /** What one payload is delivered as. */
  datatype Item<+T> = Frame(frame: KaigiFrame<T>) | Malformed

  function Meaning<T>(codec: Codec<T>, payload: seq<u8>): Item<T>
  {
    if payload == [] then Frame(Error("zero-length frame"))
    else match codec.decode(payload)
         case Some(frame) => Frame(frame)
         case None => Malformed
  }

  function Meanings<T>(codec: Codec<T>, payloads: seq<seq<u8>>): (items: seq<Item<T>>)
    ensures |items| == |payloads|
    ensures forall i :: 0 <= i < |items| ==> items[i] == Meaning(codec, payloads[i])
  {
    seq(|payloads|, i requires 0 <= i < |payloads| => Meaning(codec, payloads[i]))
  }

  type Poll<T> = Result<Option<KaigiFrame<T>>, WireError>

  /** The item a poll delivers, if it delivers one. */
  function Delivered<T>(poll: Poll<T>): seq<Item<T>>
  {
    match poll
    case Ok(Some(frame)) => [Frame(frame)]
    case Err(DecodeFailed) => [Malformed]
    case _ => []
  }

  /** What one poll of a buffer returns, and the buffer it leaves. */
  function Take<T>(codec: Codec<T>, buf: seq<u8>): (Poll<T>, seq<u8>)
  {
    if |buf| < 4 then (Ok(None), buf) else
      var len := DeclaredLength(buf);
      if len == 0 then (Ok(Some(KaigiFrame.Error("zero-length frame"))), buf[4..])
      else if len > MAX_FRAME_LEN then (Err(LengthTooLarge(len)), buf)
      else if |buf| < 4 + len then (Ok(None), buf)
      else
        var decoded := codec.decode(buf[4..4 + len]);
        (if decoded.Some? then Ok(decoded) else Err(DecodeFailed), buf[4 + len..])
  }

  /** A poll of a stuck buffer delivers nothing, leaves the buffer alone and says which way it is stuck. */
  lemma TakeFromStuck<T>(codec: Codec<T>, buf: seq<u8>)
    requires Stuck(buf)
    ensures var (poll, rest) := Take(codec, buf);
            && rest == buf && Delivered(poll) == []
            && (poll == Ok(None) <==> |buf| < 4 || DeclaredLength(buf) <= MAX_FRAME_LEN)
            && (poll != Ok(None) ==> poll == Err(LengthTooLarge(DeclaredLength(buf))))
            && (poll == Ok(None) ==> |buf| < 4 + MAX_FRAME_LEN)
  {
  }

  /** A poll of any other buffer delivers the first payload of its reading and leaves the rest of the reading. */
  lemma TakeReads<T>(codec: Codec<T>, buf: seq<u8>)
    requires !Stuck(buf)
    ensures var (p, (poll, rest)) := (Parse(buf), Take(codec, buf));
            && p.payloads != []
            && Delivered(poll) == [Meaning(codec, p.payloads[0])]
            && Parse(rest) == Parsed(p.payloads[1..], p.rest)
  {
    var len := DeclaredLength(buf);
    var q := Parse(buf[4 + len..]);
    assert len == 0 ==> buf[4..4 + len] == [];
    assert ([buf[4..4 + len]] + q.payloads)[1..] == q.payloads;
  }

  /** What was delivered, followed by the reading of the buffer, is the reading of everything pushed. */
  ghost predicate Explains<T>(codec: Codec<T>, delivered: seq<Item<T>>, buf: seq<u8>, pushed: seq<u8>)
  {
    && delivered + Meanings(codec, Parse(buf).payloads) == Meanings(codec, Parse(pushed).payloads)
    && Parse(buf).rest == Parse(pushed).rest
  }

  lemma PushExplains<T>(codec: Codec<T>, delivered: seq<Item<T>>, buf: seq<u8>, pushed: seq<u8>, data: seq<u8>)
    requires Explains(codec, delivered, buf, pushed)
    ensures Explains(codec, delivered, buf + data, pushed + data)
  {
    ParseResumes(pushed, data);
    ParseResumes(buf, data);
    var p, q, tail := Parse(pushed), Parse(buf), Parse(Parse(buf).rest + data);
    MeaningsConcat(codec, p.payloads, tail.payloads);
    MeaningsConcat(codec, q.payloads, tail.payloads);
    AppendAssoc(delivered, Meanings(codec, q.payloads), Meanings(codec, tail.payloads));
  }

  lemma TakeExplains<T>(codec: Codec<T>, delivered: seq<Item<T>>, buf: seq<u8>, pushed: seq<u8>)
    requires Explains(codec, delivered, buf, pushed)
    ensures var (poll, rest) := Take(codec, buf); Explains(codec, delivered + Delivered(poll), rest, pushed)
  {
    var (poll, rest) := Take(codec, buf);
    var payloads := Parse(buf).payloads;
    if Stuck(buf) {
      TakeFromStuck(codec, buf);
      assert delivered + Delivered(poll) == delivered;
    } else {
      TakeReads(codec, buf);
      assert payloads == [payloads[0]] + payloads[1..];
      MeaningsConcat(codec, [payloads[0]], payloads[1..]);
      assert Meanings(codec, [payloads[0]]) == Delivered(poll);
      AppendAssoc(delivered, Delivered(poll), Meanings(codec, payloads[1..]));
    }
  }

  lemma MeaningsConcat<T>(codec: Codec<T>, first: seq<seq<u8>>, second: seq<seq<u8>>)
    ensures Meanings(codec, first + second) == Meanings(codec, first) + Meanings(codec, second)
  {
  }

  /** The streaming decoder. The ghost fields remember what was pushed and what was delivered. */
  class FrameDecoder<T> {
    const codec: Codec<T>
    var buf: seq<u8>
    ghost var pushed: seq<u8>
    ghost var delivered: seq<Item<T>>

    /** The streaming decoder refines the whole-buffer reading. */
    ghost predicate Valid()
      reads this
    {
      Explains(codec, delivered, buf, pushed)
    }

    constructor (codec: Codec<T>)
      ensures Valid() && this.codec == codec
      ensures buf == [] && pushed == [] && delivered == []
    {
      this.codec := codec;
      buf, pushed, delivered := [], [], [];
    }

    method Push(data: seq<u8>)
      requires Valid()
      modifies this
      ensures Valid()
      ensures buf == old(buf) + data && pushed == old(pushed) + data && delivered == old(delivered)
    {
      PushExplains(codec, delivered, buf, pushed, data);
      buf := buf + data;
      pushed := pushed + data;
    }

    method TryNext() returns (poll: Poll<T>)
      requires Valid()
      modifies this
      ensures Valid()
      ensures pushed == old(pushed) && delivered == old(delivered) + Delivered(poll)
      ensures (poll, buf) == Take(codec, old(buf))
    {
      TakeExplains(codec, delivered, buf, pushed);
      ghost var (taken, rest) := Take(codec, buf);
      delivered := delivered + Delivered(taken);
      if |buf| < 4 {
        return Ok(None);
      }
      var len := DeclaredLength(buf);
      if len == 0 {
        buf := buf[4..];
        return Ok(Some(KaigiFrame.Error("zero-length frame")));
      }
      if len > MAX_FRAME_LEN {
        return Err(LengthTooLarge(len));
      }
      if |buf| < 4 + len {
        return Ok(None);
      }
      var payload := buf[4..4 + len];
      buf := buf[4 + len..];
      var decoded := codec.decode(payload);
      if decoded.None? {
        return Err(DecodeFailed);
      }
      return Ok(Some(decoded.value));
    }
  }
}
