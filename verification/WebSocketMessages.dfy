/**
 What arrives at the callback, described by the frames alone, and what a frame is, described by its
 bytes (sections 5.2, 5.4 and 5.5 of RFC 6455).
 */
module WebSocketMessages {
  import opened Wrappers
  import opened MachineWords
  import BitwiseXor
  import opened WebSocket

  // ---------------------------------------------------------------------------
  // The messages of a frame sequence
  // ---------------------------------------------------------------------------

  /** A text or binary frame. */
  predicate IsData(f: Frame) {
    f.opcode == 0x1 || f.opcode == 0x2
  }

  /** A frame that ends a message: a final data frame or a final continuation. */
  predicate EndsMessage(f: Frame) {
    f.fin && (IsData(f) || f.opcode == 0x0)
  }

  /** The fragments collected and not yet delivered after some frames, when `begun` was collected before them. */
  function Pending(begun: seq<byte>, frames: seq<Frame>): seq<byte> {
    if frames == [] then begun
    else
      var before, last := Pending(begun, frames[..|frames| - 1]), frames[|frames| - 1];
      if IsData(last) then (if last.fin then before else last.payload)
      else if last.opcode == 0x0 then (if last.fin then [] else before + last.payload)
      else before
  }

  /** The message a frame ends: its own payload, or what was collected before a final continuation and its payload. */
  function MessageAt(begun: seq<byte>, frames: seq<Frame>, i: nat): seq<byte>
    requires i < |frames|
  {
    if IsData(frames[i]) then frames[i].payload else Pending(begun, frames[..i]) + frames[i].payload
  }

  /** The payload of every final data frame and every reassembled message that is not empty, in order. */
  function Messages(begun: seq<byte>, frames: seq<Frame>): seq<seq<byte>> {
    if frames == [] then []
    else
      var n := |frames| - 1;
      Messages(begun, frames[..n])
      + (if EndsMessage(frames[n]) && (IsData(frames[n]) || MessageAt(begun, frames, n) != [])
         then [MessageAt(begun, frames, n)] else [])
  }

  /** How many messages were ended, delivered or empty. */
  function MessageCount(frames: seq<Frame>): nat {
    if frames == [] then 0
    else MessageCount(frames[..|frames| - 1]) + (if EndsMessage(frames[|frames| - 1]) then 1 else 0)
  }

  function ByteCount(begun: seq<byte>, frames: seq<Frame>): nat {
    if frames == [] then 0
    else
      var n := |frames| - 1;
      ByteCount(begun, frames[..n]) + (if EndsMessage(frames[n]) then |MessageAt(begun, frames, n)| else 0)
  }

  /** The payload of every ping, in order. */
  function PingPayloads(frames: seq<Frame>): seq<seq<byte>> {
    if frames == [] then []
    else
      var n := |frames| - 1;
      PingPayloads(frames[..n]) + (if frames[n].opcode == 0x9 then [frames[n].payload] else [])
  }

  function PongCount(frames: seq<Frame>): nat {
    if frames == [] then 0
    else PongCount(frames[..|frames| - 1]) + (if frames[|frames| - 1].opcode == 0xA then 1 else 0)
  }

  /** The frames before the first close. */
  function UpToClose(frames: seq<Frame>): (front: seq<Frame>)
    ensures front <= frames && forall f :: f in front ==> f.opcode != 0x8
    ensures front == frames || frames[|front|].opcode == 0x8
  {
    if frames == [] || frames[0].opcode == 0x8 then [] else [frames[0]] + UpToClose(frames[1..])
  }

  /** What a receiver has become after frames without a close. */
  function After(r: Receiver, frames: seq<Frame>): Receiver {
    Receiver(r.buffer, Pending(r.fragment, frames), r.delivered + Messages(r.fragment, frames),
             r.pongsSent + PingPayloads(frames), r.pongsReceived + PongCount(frames),
             r.messages + MessageCount(frames), r.bytes + ByteCount(r.fragment, frames), r.closed)
  }

  lemma {:induction false} HandleAllInTwo(r: Receiver, front: seq<Frame>, rest: seq<Frame>)
    ensures HandleAll(r, front + rest) == HandleAll(HandleAll(r, front), rest)
    decreases |front|
  {
    hide HandleFrame;
    if front == [] || r.closed {
      assert front == [] ==> front + rest == rest;
    } else {
      assert (front + rest)[0] == front[0] && (front + rest)[1..] == front[1..] + rest;
      HandleAllInTwo(HandleFrame(r, front[0]), front[1..], rest);
    }
  }

  lemma {:induction false} PrefixMessage(begun: seq<byte>, frames: seq<Frame>, n: nat, i: nat)
    requires i < n <= |frames|
    ensures MessageAt(begun, frames[..n], i) == MessageAt(begun, frames, i)
  {
    assert frames[..n][..i] == frames[..i];
  }

  /** Without a close, whatever was collected, delivered, answered and counted is what the frames say. */
  lemma {:induction false} OpenReceiverHandles(r: Receiver, frames: seq<Frame>)
    requires !r.closed && forall f :: f in frames ==> f.opcode != 0x8
    ensures HandleAll(r, frames) == After(r, frames)
    decreases |frames|
  {
    if frames == [] {
    } else {
      var n := |frames| - 1;
      var front, last := frames[..n], frames[n];
      OpenReceiverHandles(r, front);
      HandleAllInTwo(r, front, [last]);
      assert front + [last] == frames && last in frames;
      var before := After(r, front);
      assert HandleAll(before, [last]) == HandleFrame(before, last);
      FrameStep(r, frames);
    }
  }

  lemma FrameStep(r: Receiver, frames: seq<Frame>)
    requires frames != [] && frames[|frames| - 1].opcode != 0x8
    ensures HandleFrame(After(r, frames[..|frames| - 1]), frames[|frames| - 1]) == After(r, frames)
  {
    var n := |frames| - 1;
    var a, b := After(r, frames[..n]), After(r, frames);
    var message := MessageAt(r.fragment, frames, n);
    EmptyAppended(a.delivered, a.pongsSent);
  }

  /**
   For every receiver that is not closed and every sequence of frames: what is delivered, answered
   and counted is exactly what the frames before the first close say, and a close ends the connection
   and drops what was collected.
   */
  lemma {:induction false} ReceiverFollowsFrames(r: Receiver, frames: seq<Frame>)
    requires !r.closed
    ensures var front := UpToClose(frames);
            var after := HandleAll(r, frames);
            && after.delivered == r.delivered + Messages(r.fragment, front)
            && after.pongsSent == r.pongsSent + PingPayloads(front)
            && after.pongsReceived == r.pongsReceived + PongCount(front)
            && after.messages == r.messages + MessageCount(front)
            && after.bytes == r.bytes + ByteCount(r.fragment, front)
            && (after.closed <==> exists f :: f in frames && f.opcode == 0x8)
            && (if after.closed then after.fragment == [] && after.buffer == []
                else after.fragment == Pending(r.fragment, frames) && after.buffer == r.buffer)
  {
    var front := UpToClose(frames);
    OpenReceiverHandles(r, front);
    if front != frames {
      var close, rest := frames[|front|], frames[|front| + 1..];
      assert close in frames;
      assert frames == front + ([close] + rest);
      HandleAllInTwo(r, front, [close] + rest);
      assert ([close] + rest)[0] == close && ([close] + rest)[1..] == rest;
    }
  }

  // ---------------------------------------------------------------------------
  // The bytes of a frame
  // ---------------------------------------------------------------------------

  /** Where the length ends: behind the two fixed bytes and, for the codes 126 and 127, two or eight more. */
  function LengthEnd(b: seq<byte>): nat
    requires |b| >= 2
  {
    if b[1] % 128 == 126 then 4 else if b[1] % 128 == 127 then 10 else 2
  }

  /** Where the payload starts: behind the length and, when the mask bit is set, the four bytes of the key. */
  function PayloadStart(b: seq<byte>): nat
    requires |b| >= 2
  {
    LengthEnd(b) + (if b[1] >= 128 then 4 else 0)
  }

  predicate HasHeader(b: seq<byte>) {
    |b| >= 2 && |b| >= PayloadStart(b)
  }

  /** Two bytes of a length, the more significant first. */
  function Word(b: seq<byte>, i: nat): nat
    requires i + 2 <= |b|
  {
    var high: int := b[i];
    high * 0x100 + b[i + 1]
  }

  /** The payload length, most significant byte first where it is extended. */
  function PayloadLength(b: seq<byte>): nat
    requires HasHeader(b)
  {
    if b[1] % 128 == 126 then Word(b, 2)
    else if b[1] % 128 == 127 then
      ((Word(b, 2) * 0x1_0000 + Word(b, 4)) * 0x1_0000 + Word(b, 6)) * 0x1_0000 + Word(b, 8)
    else b[1] % 128
  }

  /** The payload, each byte under the byte of the key at its position modulo four when there is a key. */
  ghost predicate PayloadUnderKey(b: seq<byte>, payload: seq<byte>)
    requires HasHeader(b) && PayloadStart(b) + PayloadLength(b) <= |b|
  {
    && |payload| == PayloadLength(b)
    && forall i :: 0 <= i < |payload| ==>
         payload[i] == if b[1] >= 128 then BitwiseXor.XorByte(b[PayloadStart(b) + i], b[LengthEnd(b) + i % 4])
                       else b[PayloadStart(b) + i]
  }

  /** The first `n` bytes are that frame: flags and opcode, length, key, and the payload under the key. */
  ghost predicate Carries(b: seq<byte>, f: Frame, n: nat) {
    && HasHeader(b)
    && f.opcode == b[0] % 16 && (f.fin <==> b[0] >= 128)
    && PayloadLength(b) <= 1_048_576
    && n == PayloadStart(b) + PayloadLength(b) <= |b|
    && PayloadUnderKey(b, f.payload)
  }

  lemma BigEndianWord(b: seq<byte>)
    requires |b| >= 2
    ensures FromBigEndian(b) == FromBigEndian(b[..|b| - 2]) * 0x1_0000 + Word(b, |b| - 2)
  {
    assert b[..|b| - 1][..|b| - 2] == b[..|b| - 2];
  }

  lemma BigEndianEight(b: seq<byte>)
    requires |b| == 8
    ensures FromBigEndian(b) ==
              ((Word(b, 0) * 0x1_0000 + Word(b, 2)) * 0x1_0000 + Word(b, 4)) * 0x1_0000 + Word(b, 6)
  {
    BigEndianWord(b);
    BigEndianWord(b[..6]);
    BigEndianWord(b[..4]);
    BigEndianWord(b[..2]);
    assert b[..6][..4] == b[..4] && b[..4][..2] == b[..2] && b[..2][..0] == [];
  }

  lemma HeaderIsRead(b: seq<byte>)
    ensures ReadHeader(b).Some? <==> HasHeader(b)
    ensures HasHeader(b) ==> ReadHeader(b) == Some(Header(b[1] >= 128, LengthEnd(b), PayloadStart(b), PayloadLength(b)))
  {
    if HasHeader(b) {
      if b[1] % 128 == 126 {
        BigEndianWord(b[2..4]);
        assert b[2..4][..0] == [];
      } else if b[1] % 128 == 127 {
        BigEndianEight(b[2..10]);
      }
      hide FromBigEndian;
    }
  }

  /**
   A buffer yields a frame if and only if it starts with that frame's bytes, is refused if and only
   if it announces more than a mebibyte, and otherwise waits for more.
   */
  lemma PopOneIff(b: seq<byte>, f: Frame, n: nat)
    ensures PopOne(b) == Popped(f, n) <==> Carries(b, f, n)
    ensures PopOne(b) == Oversized <==> HasHeader(b) && PayloadLength(b) > 1_048_576
    ensures PopOne(b) == NeedMore <==>
              !HasHeader(b) || (PayloadLength(b) <= 1_048_576 && |b| < PayloadStart(b) + PayloadLength(b))
  {
    HeaderIsRead(b);
    hide ReadHeader, PayloadLength, PayloadUnderKey, LengthEnd, PayloadStart, HasHeader;
    if HasHeader(b) && PayloadLength(b) <= 1_048_576 && PayloadStart(b) + PayloadLength(b) <= |b| {
      PayloadIsRead(b, f);
      hide Masked;
    }
  }

  lemma PayloadIsRead(b: seq<byte>, f: Frame)
    requires HasHeader(b) && PayloadStart(b) + PayloadLength(b) <= |b|
    ensures var raw := b[PayloadStart(b)..PayloadStart(b) + PayloadLength(b)];
            var payload := if b[1] >= 128 then Masked(raw, b[LengthEnd(b)..PayloadStart(b)]) else raw;
            f.payload == payload <==> PayloadUnderKey(b, f.payload)
  {
    hide PayloadLength, BitwiseXor.XorByte;
    var raw := b[PayloadStart(b)..PayloadStart(b) + PayloadLength(b)];
    var payload := if b[1] >= 128 then Masked(raw, b[LengthEnd(b)..PayloadStart(b)]) else raw;
    assert PayloadUnderKey(b, payload);
    if PayloadUnderKey(b, f.payload) {
      assert f.payload == payload;
    }
  }

  /**
   A built frame carries its opcode, final flag, key and payload, with the shortest length field that
   can hold the payload's length.
   */
  lemma EncodedFrameCarries(frame: Frame, mask: Option<MaskKey>)
    requires frame.opcode < 16 && |frame.payload| <= MAX_PAYLOAD
    ensures var b := Encode(frame, mask);
            && Carries(b, frame, |b|)
            && (b[1] >= 128 <==> mask.Some?)
            && (mask.Some? ==> b[LengthEnd(b)..PayloadStart(b)] == mask.value)
            && LengthEnd(b) == (if |frame.payload| < 126 then 2 else if |frame.payload| < 0x1_0000 then 4 else 10)
  {
    var b := Encode(frame, mask);
    EncodedFramePops(frame, mask, []);
    assert b + [] == b;
    PopOneIff(b, frame, |b|);
    var header := LengthBytes(|frame.payload|, mask.Some?);
    assert b[1] == header[0];
    hide Carries, PopOne, Masked;
    if mask.Some? {
      assert b[1 + |header|..5 + |header|] == mask.value;
    }
  }

  // ---------------------------------------------------------------------------
  // Byte streams
  // ---------------------------------------------------------------------------

  /** More bytes are needed before a frame can be read. */
  predicate Waits(b: seq<byte>) {
    !HasHeader(b) || (PayloadLength(b) <= 1_048_576 && |b| < PayloadStart(b) + PayloadLength(b))
  }

  /** A header announces more than a mebibyte. */
  predicate TooLong(b: seq<byte>) {
    HasHeader(b) && PayloadLength(b) > 1_048_576
  }

  /** The bytes are those frames one after the other, and then the tail. */
  ghost predicate Stream(b: seq<byte>, frames: seq<Frame>, tail: seq<byte>)
    decreases |frames|
  {
    if frames == [] then b == tail
    else exists n: nat :: n <= |b| && Carries(b, frames[0], n) && Stream(b[n..], frames[1..], tail)
  }

  lemma {:induction false} DrainsStream(r: Receiver, frames: seq<Frame>, tail: seq<byte>)
    requires !r.closed && Stream(r.buffer, frames, tail) && (Waits(tail) || TooLong(tail))
    ensures var handled := HandleAll(r.(buffer := []), frames);
            Drain(r) == if handled.closed then handled
                        else if TooLong(tail) then Shut(handled) else handled.(buffer := tail)
    decreases |frames|
  {
    hide Waits, TooLong, Carries, PopOne;
    if frames == [] {
      TailStops(tail);
    } else {
      var n: nat :| n <= |r.buffer| && Carries(r.buffer, frames[0], n) && Stream(r.buffer[n..], frames[1..], tail);
      PopOneIff(r.buffer, frames[0], n);
      var next := HandleFrame(r.(buffer := r.buffer[n..]), frames[0]);
      var bare := HandleFrame(r.(buffer := []), frames[0]);
      assert next == if bare.closed then bare else bare.(buffer := r.buffer[n..]);
      if !next.closed {
        DrainsStream(next, frames[1..], tail);
        assert next.(buffer := []) == bare;
      }
    }
  }

  lemma TailStops(tail: seq<byte>)
    requires Waits(tail) || TooLong(tail)
    ensures PopOne(tail) == if TooLong(tail) then Oversized else NeedMore
  {
    PopOneIff(tail, Frame(0, false, []), 0);
    hide PopOne, Carries;
  }

  /** Every stream of bytes is a sequence of frames and a tail that waits for more or is too long. */
  lemma {:induction false} EveryStreamIsFrames(b: seq<byte>) returns (frames: seq<Frame>, tail: seq<byte>)
    ensures Stream(b, frames, tail) && (Waits(tail) || TooLong(tail))
    decreases |b|
  {
    hide Carries, PopOne;
    PopOneIff(b, Frame(0, false, []), 0);
    match PopOne(b)
    case Popped(f, n) =>
      PopOneIff(b, f, n);
      var rest;
      rest, tail := EveryStreamIsFrames(b[n..]);
      frames := [f] + rest;
      assert frames[1..] == rest;
    case _ =>
      frames, tail := [], b;
  }

  /**
   Whatever bytes arrive, however they are cut into reads: the callback gets exactly the messages of
   the frames in them up to the first close; a close or a frame that is too long ends the connection,
   and otherwise the unfinished frame is kept.
   */
  lemma StreamDeliversMessages(chunks: seq<seq<byte>>, frames: seq<Frame>, tail: seq<byte>)
    requires Stream(WebSocket.Join(chunks), frames, tail) && (Waits(tail) || TooLong(tail))
    ensures var front, after := UpToClose(frames), FeedAll(FRESH_RECEIVER, chunks);
            && after.delivered == Messages([], front)
            && after.pongsSent == PingPayloads(front)
            && after.pongsReceived == PongCount(front)
            && after.messages == MessageCount(front)
            && after.bytes == ByteCount([], front)
            && (after.closed <==> (exists f :: f in frames && f.opcode == 0x8) || TooLong(tail))
            && (if after.closed then after.fragment == [] && after.buffer == []
                else after.fragment == Pending([], frames) && after.buffer == tail)
  {
    hide PopOne, Stream, HandleFrame, Waits, TooLong;
    EmptyBufferNeedsMore();
    ChunkingDoesNotMatter(FRESH_RECEIVER, chunks);
    assert [] + WebSocket.Join(chunks) == WebSocket.Join(chunks);
    DrainsStream(FRESH_RECEIVER.(buffer := WebSocket.Join(chunks)), frames, tail);
    ReceiverFollowsFrames(FRESH_RECEIVER, frames);
  }
}
