/**
 WebSocket framing (sections 5.2 to 5.4 of RFC 6455): building one frame, popping frames off a
 receive buffer that grows by arbitrary reads, and reassembling fragmented messages.
 */
module WebSocket {
  import opened Wrappers
  import opened MachineWords
  import opened BitwiseXor

  const CONTINUATION: byte := 0x0
  const TEXT: byte := 0x1
  const BINARY: byte := 0x2
  const CLOSE: byte := 0x8
  const PING: byte := 0x9
  const PONG: byte := 0xA

  const MAX_PAYLOAD := 0x10_0000

  type MaskKey = key: seq<byte> | |key| == 4 witness [0, 0, 0, 0]

  datatype Frame = Frame(opcode: byte, fin: bool, payload: seq<byte>)

  // ---------------------------------------------------------------------------
  // Numbers and masks on the wire
  // ---------------------------------------------------------------------------

  function FromBigEndian(bytes: seq<byte>): nat {
    if bytes == [] then 0 else FromBigEndian(bytes[..|bytes| - 1]) * 256 + bytes[|bytes| - 1]
  }

  function ToBigEndian(n: nat, width: nat): (bytes: seq<byte>)
    ensures |bytes| == width
  {
    if width == 0 then [] else ToBigEndian(n / 256, width - 1) + [n % 256]
  }

  function Pow256(n: nat): (p: nat)
    ensures p > 0
  {
    if n == 0 then 1 else 256 * Pow256(n - 1)
  }

  lemma {:induction false} BigEndianRoundTrip(n: nat, width: nat)
    requires n < Pow256(width)
    ensures FromBigEndian(ToBigEndian(n, width)) == n
  {
    if width > 0 {
      BigEndianRoundTrip(n / 256, width - 1);
      var bytes := ToBigEndian(n, width);
      assert bytes[..width - 1] == ToBigEndian(n / 256, width - 1);
    }
  }

  function Masked(payload: seq<byte>, key: MaskKey): (masked: seq<byte>)
    ensures |masked| == |payload|
  {
    seq(|payload|, i requires 0 <= i < |payload| => XorByte(payload[i], key[i % 4]))
  }

  /** Masking is its own inverse. */
  lemma MaskedTwice(payload: seq<byte>, key: MaskKey)
    ensures Masked(Masked(payload, key), key) == payload
  {
    forall i | 0 <= i < |payload| ensures Masked(Masked(payload, key), key)[i] == payload[i] {
      XorTwice(payload[i], key[i % 4]);
    }
  }

  /** The toy encryption of the injected test path: every byte under one fixed mask. */
  function SecureEnvelope(data: seq<byte>): (out: seq<byte>)
    ensures |out| == |data|
  {
    seq(|data|, i requires 0 <= i < |data| => XorByte(data[i], 0xA5))
  }

  /** Applying the envelope twice gives back the data, so the same function opens it. */
  lemma SecureEnvelopeTwice(data: seq<byte>)
    ensures SecureEnvelope(SecureEnvelope(data)) == data
  {
    forall i | 0 <= i < |data| ensures SecureEnvelope(SecureEnvelope(data))[i] == data[i] {
      XorTwice(data[i], 0xA5);
    }
  }

  // ---------------------------------------------------------------------------
  // One frame
  // ---------------------------------------------------------------------------

  function LengthBytes(length: nat, masked: bool): seq<byte> {
    var flag := if masked then 0x80 else 0;
    if length <= 125 then [flag + length]
    else if length <= 0xffff then [flag + 126] + ToBigEndian(length, 2)
    else [flag + 127] + ToBigEndian(length, 8)
  }

  /** A frame as it travels: flags and opcode, length, key when masked, payload. */
  function Encode(frame: Frame, mask: Option<MaskKey>): seq<byte>
    requires frame.opcode < 16
  {
    [(if frame.fin then 0x80 else 0) + frame.opcode]
    + LengthBytes(|frame.payload|, mask.Some?)
    + (if mask.Some? then mask.value + Masked(frame.payload, mask.value) else frame.payload)
  }

  datatype Pop = NeedMore | Oversized | Popped(frame: Frame, consumed: nat)

  function ExtendedLength(length7: nat): nat {
    if length7 == 126 then 2 else if length7 == 127 then 8 else 0
  }

  /** Where the payload starts, where the extended length ends, and how long the payload is. */
  datatype Header = Header(masked: bool, extended: nat, start: nat, length: nat)

  function ReadHeader(buffer: seq<byte>): (header: Option<Header>)
    ensures header.Some? ==>
              && 2 <= header.value.extended <= header.value.start <= |buffer|
              && header.value.start == header.value.extended + (if header.value.masked then 4 else 0)
  {
    if |buffer| < 2 then None else
    var masked, length7 := buffer[1] >= 0x80, buffer[1] % 0x80;
    var extended := 2 + ExtendedLength(length7);
    if |buffer| < extended then None else
    var length := if length7 < 126 then length7 else FromBigEndian(buffer[2..extended]);
    var start := if masked then extended + 4 else extended;
    if |buffer| < start then None else Some(Header(masked, extended, start, length))
  }

  /** The first frame of a buffer, if the buffer holds all of it. */
  function PopOne(buffer: seq<byte>): (result: Pop)
    ensures result.Popped? ==> 2 <= result.consumed <= |buffer|
  {
    match ReadHeader(buffer)
    case None => NeedMore
    case Some(header) =>
      if header.length > MAX_PAYLOAD then Oversized
      else if |buffer| < header.start + header.length then NeedMore
      else
        var raw := buffer[header.start..header.start + header.length];
        Popped(Frame(buffer[0] % 16, buffer[0] >= 0x80,
                     if header.masked then Masked(raw, buffer[header.extended..header.start]) else raw),
               header.start + header.length)
  }

  lemma HeaderIsStable(buffer: seq<byte>, more: seq<byte>)
    requires ReadHeader(buffer).Some?
    ensures ReadHeader(buffer + more) == ReadHeader(buffer)
  {
    hide FromBigEndian;
    var extended := ReadHeader(buffer).value.extended;
    assert (buffer + more)[2..extended] == buffer[2..extended];
  }

  /** More bytes behind a complete frame do not change it. */
  lemma PopIsStable(buffer: seq<byte>, more: seq<byte>)
    requires PopOne(buffer) != NeedMore
    ensures PopOne(buffer + more) == PopOne(buffer)
  {
    hide ReadHeader, Masked;
    HeaderIsStable(buffer, more);
    var header := ReadHeader(buffer).value;
    var longer := buffer + more;
    assert longer[header.extended..header.start] == buffer[header.extended..header.start];
    if PopOne(buffer).Popped? {
      assert longer[header.start..header.start + header.length] == buffer[header.start..header.start + header.length];
    }
  }

  lemma EncodedHeader(flags: byte, length: nat, key: seq<byte>, rest: seq<byte>)
    requires length < TWO64 && (|key| == 0 || |key| == 4)
    ensures var header := LengthBytes(length, |key| == 4);
            var buffer := [flags] + header + (key + rest);
            ReadHeader(buffer) == Some(Header(|key| == 4, 1 + |header|, 1 + |header| + |key|, length))
  {
    hide FromBigEndian, LengthBytes;
    var header := LengthBytes(length, |key| == 4);
    var buffer := [flags] + header + (key + rest);
    HeaderRoundTrip(length, |key| == 4);
    assert buffer[1] == header[0];
    assert buffer[2..1 + |header|] == header[1..];
  }

  /**
   Popping an encoded frame followed by anything returns that frame and leaves the rest; a payload
   over the limit is reported as oversized instead.
   */
  lemma EncodedFramePops(frame: Frame, mask: Option<MaskKey>, rest: seq<byte>)
    requires frame.opcode < 16 && |frame.payload| < TWO64
    ensures PopOne(Encode(frame, mask) + rest) ==
              if |frame.payload| <= MAX_PAYLOAD then Popped(frame, |Encode(frame, mask)|) else Oversized
  {
    hide ReadHeader, Masked, LengthBytes, FromBigEndian, PopOne;
    var flags: byte := (if frame.fin then 0x80 else 0) + frame.opcode;
    var header := LengthBytes(|frame.payload|, mask.Some?);
    var key: seq<byte> := if mask.Some? then mask.value else [];
    var body := if mask.Some? then Masked(frame.payload, mask.value) else frame.payload;
    NoKey(body);
    assert Encode(frame, mask) == [flags] + header + (key + body);
    hide Encode;
    Regrouped([flags] + header, key, body, rest);
    EncodedHeader(flags, |frame.payload|, key, body + rest);
    Parts([flags], header, key, body, rest);
    PopWithHeader(Encode(frame, mask) + rest,
                  Header(mask.Some?, 1 + |header|, 1 + |header| + |key|, |frame.payload|), flags, key, body);
    if mask.Some? {
      MaskedTwice(frame.payload, mask.value);
    }
  }

  lemma PopWithHeader(buffer: seq<byte>, header: Header, flags: byte, key: seq<byte>, body: seq<byte>)
    requires ReadHeader(buffer) == Some(header) && buffer[0] == flags
    requires |body| == header.length && header.start + header.length <= |buffer|
    requires buffer[header.extended..header.start] == key
    requires buffer[header.start..header.start + header.length] == body
    ensures PopOne(buffer) ==
              if header.length > MAX_PAYLOAD then Oversized
              else Popped(Frame(flags % 16, flags >= 0x80, if header.masked then Masked(body, key) else body),
                          header.start + header.length)
  {
    hide ReadHeader, Masked;
  }

  lemma NoKey(body: seq<byte>)
    ensures [] + body == body
  {
  }

  lemma Regrouped(front: seq<byte>, key: seq<byte>, body: seq<byte>, rest: seq<byte>)
    ensures front + (key + body) + rest == front + (key + (body + rest))
  {
  }

  lemma Parts(flags: seq<byte>, header: seq<byte>, key: seq<byte>, payload: seq<byte>, rest: seq<byte>)
    ensures var buffer := flags + header + (key + payload) + rest;
            var a, b := |flags| + |header|, |flags| + |header| + |key|;
            && buffer[|flags|..a] == header
            && buffer[a..b] == key
            && buffer[b..b + |payload|] == payload
  {
  }

  lemma HeaderRoundTrip(length: nat, masked: bool)
    requires length < TWO64
    ensures var header := LengthBytes(length, masked);
            && |header| == 1 + ExtendedLength(header[0] % 0x80)
            && (header[0] >= 0x80 <==> masked)
            && (if header[0] % 0x80 < 126 then header[0] % 0x80 else FromBigEndian(header[1..])) == length
  {
    if 125 < length <= 0xffff {
      assert Pow256(2) == 0x1_0000;
      BigEndianRoundTrip(length, 2);
      assert LengthBytes(length, masked)[1..] == ToBigEndian(length, 2);
    } else if 0xffff < length {
      assert Pow256(4) == TWO32;
      assert Pow256(8) == 256 * 256 * 256 * 256 * Pow256(4);
      BigEndianRoundTrip(length, 8);
      assert LengthBytes(length, masked)[1..] == ToBigEndian(length, 8);
    }
  }

  // ---------------------------------------------------------------------------
  // The receiver
  // ---------------------------------------------------------------------------

  datatype Receiver = Receiver(
    buffer: seq<byte>,
    fragment: seq<byte>,
    delivered: seq<seq<byte>>,
    pongsSent: seq<seq<byte>>,
    pongsReceived: nat,
    messages: nat,
    bytes: nat,
    closed: bool)

  const FRESH_RECEIVER := Receiver([], [], [], [], 0, 0, 0, false)

  function Shut(r: Receiver): Receiver {
    r.(buffer := [], fragment := [], closed := true)
  }

  function HandleFrame(r: Receiver, f: Frame): Receiver {
    if f.opcode == PING then r.(pongsSent := r.pongsSent + [f.payload])
    else if f.opcode == PONG then r.(pongsReceived := r.pongsReceived + 1)
    else if f.opcode == CLOSE then Shut(r)
    else if f.opcode == CONTINUATION then
      var fragment := r.fragment + f.payload;
      if f.fin then
        r.(delivered := if fragment != [] then r.delivered + [fragment] else r.delivered,
           messages := r.messages + 1, bytes := r.bytes + |fragment|, fragment := [])
      else r.(fragment := fragment)
    else if f.opcode == TEXT || f.opcode == BINARY then
      if !f.fin then r.(fragment := f.payload)
      else r.(delivered := r.delivered + [f.payload], messages := r.messages + 1, bytes := r.bytes + |f.payload|)
    else r
  }

  /** Handles every complete frame in the buffer, stopping at a close. */
  function Drain(r: Receiver): Receiver
    decreases |r.buffer|
  {
    match PopOne(r.buffer)
    case NeedMore => r
    case Oversized => Shut(r)
    case Popped(frame, consumed) =>
      var next := HandleFrame(r.(buffer := r.buffer[consumed..]), frame);
      if next.closed then next else Drain(next)
  }

  /** One read from the socket. Nothing more is read once the connection is closed. */
  function Feed(r: Receiver, chunk: seq<byte>): Receiver {
    if r.closed then r else Drain(r.(buffer := r.buffer + chunk))
  }

  function FeedAll(r: Receiver, chunks: seq<seq<byte>>): Receiver
    decreases |chunks|
  {
    if chunks == [] then r else FeedAll(Feed(r, chunks[0]), chunks[1..])
  }

  function Join(chunks: seq<seq<byte>>): seq<byte> {
    if chunks == [] then [] else chunks[0] + Join(chunks[1..])
  }

  /** Nothing more can be handled without further input. */
  ghost predicate Settled(r: Receiver) {
    r.closed || PopOne(r.buffer) == NeedMore
  }

  // ---------------------------------------------------------------------------
  // Chunking does not matter
  // ---------------------------------------------------------------------------

  lemma {:induction false} DrainSettles(r: Receiver)
    requires !r.closed
    ensures Settled(Drain(r))
    decreases |r.buffer|
  {
    hide PopOne;
    match PopOne(r.buffer)
    case Popped(frame, consumed) =>
      var next := HandleFrame(r.(buffer := r.buffer[consumed..]), frame);
      if !next.closed {
        DrainSettles(next);
      }
    case _ =>
  }

  /** Bytes that arrive later can just as well have been in the buffer from the start. */
  lemma {:induction false} DrainExtends(r: Receiver, more: seq<byte>)
    requires !r.closed
    ensures Drain(r.(buffer := r.buffer + more)) == Feed(Drain(r), more)
    decreases |r.buffer|
  {
    hide PopOne;
    var longer := r.(buffer := r.buffer + more);
    match PopOne(r.buffer)
    case NeedMore =>
    case Oversized =>
      PopIsStable(r.buffer, more);
    case Popped(frame, consumed) =>
      PopIsStable(r.buffer, more);
      var next := HandleFrame(r.(buffer := r.buffer[consumed..]), frame);
      assert longer.buffer[consumed..] == r.buffer[consumed..] + more;
      if !next.closed {
        assert HandleFrame(longer.(buffer := longer.buffer[consumed..]), frame) == next.(buffer := next.buffer + more);
        DrainExtends(next, more);
      }
  }

  lemma FeedTwice(r: Receiver, first: seq<byte>, second: seq<byte>)
    ensures Feed(Feed(r, first), second) == Feed(r, first + second)
  {
    if !r.closed {
      assert r.buffer + (first + second) == r.buffer + first + second;
      DrainExtends(r.(buffer := r.buffer + first), second);
    }
  }

  /** However a stream is cut into reads, the receiver ends up in the same state as if it came whole. */
  lemma {:induction false} ChunkingDoesNotMatter(r: Receiver, chunks: seq<seq<byte>>)
    requires Settled(r)
    ensures FeedAll(r, chunks) == Feed(r, Join(chunks))
    decreases |chunks|
  {
    if chunks == [] {
      assert r.buffer + [] == r.buffer;
    } else {
      if !r.closed {
        DrainSettles(r.(buffer := r.buffer + chunks[0]));
      }
      ChunkingDoesNotMatter(Feed(r, chunks[0]), chunks[1..]);
      FeedTwice(r, chunks[0], Join(chunks[1..]));
    }
  }

  // ---------------------------------------------------------------------------
  // Frames over the wire
  // ---------------------------------------------------------------------------

  function HandleAll(r: Receiver, frames: seq<Frame>): Receiver
    decreases |frames|
  {
    if frames == [] || r.closed then r else HandleAll(HandleFrame(r, frames[0]), frames[1..])
  }

  function EncodeAll(frames: seq<Frame>, masks: seq<Option<MaskKey>>): seq<byte>
    requires |frames| == |masks| && forall f :: f in frames ==> f.opcode < 16
  {
    if frames == [] then [] else Encode(frames[0], masks[0]) + EncodeAll(frames[1..], masks[1..])
  }

  lemma {:induction false} EncodedFramesAreHandled(r: Receiver, frames: seq<Frame>, masks: seq<Option<MaskKey>>)
    requires r.buffer == [] && |frames| == |masks|
    requires forall f :: f in frames ==> f.opcode < 16 && |f.payload| <= MAX_PAYLOAD
    ensures Feed(r, EncodeAll(frames, masks)) == HandleAll(r, frames)
    decreases |frames|
  {
    hide PopOne, Encode;
    if frames != [] && !r.closed {
      var frame, rest := frames[0], EncodeAll(frames[1..], masks[1..]);
      assert frame in frames && forall f :: f in frames[1..] ==> f in frames;
      var wire := Encode(frame, masks[0]);
      EncodedFramePops(frame, masks[0], rest);
      assert r.buffer + (wire + rest) == wire + rest;
      assert (wire + rest)[|wire|..] == rest;
      var next := HandleFrame(r, frame);
      assert HandleFrame(r.(buffer := rest), frame) == if next.closed then next else next.(buffer := rest);
      assert [] + rest == rest;
      EncodedFramesAreHandled(next, frames[1..], masks[1..]);
    } else if !r.closed {
      EmptyBufferNeedsMore();
      assert r.buffer + [] == [];
    }
  }

  lemma EmptyBufferNeedsMore()
    ensures PopOne([]) == NeedMore
  {
  }

  /**
   End to end: frames encoded with any masks and cut into any reads are handled exactly as the
   frames themselves, in order, up to the first close.
   */
  lemma WireDeliversFrames(frames: seq<Frame>, masks: seq<Option<MaskKey>>, chunks: seq<seq<byte>>)
    requires |frames| == |masks|
    requires forall f :: f in frames ==> f.opcode < 16 && |f.payload| <= MAX_PAYLOAD
    requires Join(chunks) == EncodeAll(frames, masks)
    ensures FeedAll(FRESH_RECEIVER, chunks) == HandleAll(FRESH_RECEIVER, frames)
  {
    EmptyBufferNeedsMore();
    ChunkingDoesNotMatter(FRESH_RECEIVER, chunks);
    EncodedFramesAreHandled(FRESH_RECEIVER, frames, masks);
  }

  // ---------------------------------------------------------------------------
  // Fragmented messages
  // ---------------------------------------------------------------------------

  /** A frame that may come between the fragments of a message: a control frame, or another fragment. */
  predicate Between(f: Frame) {
    f.opcode == PING || f.opcode == PONG || (f.opcode == CONTINUATION && !f.fin)
  }

  function Fragments(frames: seq<Frame>): seq<byte> {
    if frames == [] then []
    else (if frames[0].opcode == CONTINUATION then frames[0].payload else []) + Fragments(frames[1..])
  }

  function Pings(frames: seq<Frame>): seq<seq<byte>> {
    if frames == [] then []
    else (if frames[0].opcode == PING then [frames[0].payload] else []) + Pings(frames[1..])
  }

  function Pongs(frames: seq<Frame>): nat {
    if frames == [] then 0 else (if frames[0].opcode == PONG then 1 else 0) + Pongs(frames[1..])
  }

  function Accumulate(r: Receiver, frames: seq<Frame>): Receiver {
    r.(fragment := r.fragment + Fragments(frames),
       pongsSent := r.pongsSent + Pings(frames),
       pongsReceived := r.pongsReceived + Pongs(frames))
  }

  lemma {:induction false} FragmentsAccumulate(r: Receiver, frames: seq<Frame>, rest: seq<Frame>)
    requires !r.closed && forall f :: f in frames ==> Between(f)
    ensures HandleAll(r, frames + rest) == HandleAll(Accumulate(r, frames), rest)
    decreases |frames|
  {
    if frames == [] {
      assert frames + rest == rest;
      assert r.fragment + [] == r.fragment && r.pongsSent + [] == r.pongsSent;
      assert Accumulate(r, frames) == r;
    } else {
      var f, tail := frames[0], frames[1..];
      assert f in frames && forall g :: g in tail ==> g in frames;
      assert (frames + rest)[0] == f && (frames + rest)[1..] == tail + rest;
      var next := HandleFrame(r, f);
      FragmentsAccumulate(next, tail, rest);
      AccumulateStep(r, frames);
    }
  }

  lemma AccumulateStep(r: Receiver, frames: seq<Frame>)
    requires frames != [] && Between(frames[0])
    ensures Accumulate(HandleFrame(r, frames[0]), frames[1..]) == Accumulate(r, frames)
    ensures !HandleFrame(r, frames[0]).closed == !r.closed
  {
    var f, tail := frames[0], frames[1..];
    var part: seq<byte> := if f.opcode == CONTINUATION then f.payload else [];
    var ping: seq<seq<byte>> := if f.opcode == PING then [f.payload] else [];
    assert Fragments(frames) == part + Fragments(tail) && Pings(frames) == ping + Pings(tail);
    hide Fragments, Pings;
    Associative(r.fragment, part, Fragments(tail));
    Associative(r.pongsSent, ping, Pings(tail));
    EmptyAppended(r.fragment, r.pongsSent);
  }

  lemma Associative<T>(a: seq<T>, b: seq<T>, c: seq<T>)
    ensures a + (b + c) == a + b + c
  {
  }

  lemma EmptyAppended<S, T>(a: seq<S>, b: seq<T>)
    ensures a + [] == a && b + [] == b
  {
  }

  /**
   A message sent in fragments, with pings and pongs in between, is delivered exactly once, as the
   concatenation of its fragments, unless that is empty; every ping is answered.
   */
  lemma FragmentedMessageDeliveredOnce(r: Receiver, first: Frame, between: seq<Frame>, last: Frame)
    requires !r.closed
    requires (first.opcode == TEXT || first.opcode == BINARY) && !first.fin
    requires forall f :: f in between ==> Between(f)
    requires last.opcode == CONTINUATION && last.fin
    ensures var message := first.payload + Fragments(between) + last.payload;
            var after := HandleAll(r, [first] + between + [last]);
            && after.delivered == (if message == [] then r.delivered else r.delivered + [message])
            && after.pongsSent == r.pongsSent + Pings(between)
            && after.fragment == [] && !after.closed
            && after.messages == r.messages + 1 && after.bytes == r.bytes + |message|
  {
    var frames := [first] + between + [last];
    assert frames[0] == first && frames[1..] == between + [last];
    var started := HandleFrame(r, first);
    FragmentsAccumulate(started, between, [last]);
    assert [last][1..] == [];
  }
}
