/** The WebSocket client's framing code as it runs: byte loops over buffers updated in place. */
module WebSocketClients {
  import opened Wrappers
  import opened MachineWords
  import opened BitwiseXor
  import W = WebSocket

  /** Digit `k` of a big-endian number, counted from the front. */
  lemma {:induction false} DigitOf(n: nat, width: nat, k: nat)
    requires k < width
    ensures W.ToBigEndian(n, width)[k] == n / W.Pow256(width - 1 - k) % 256
  {
    if k < width - 1 {
      DigitOf(n / 256, width - 1, k);
      DivDiv(n, 256, W.Pow256(width - 2 - k));
    }
  }

  /** Builds one final frame; `mask` carries the four key bytes of a masked client frame. */
  method BuildWsFrame(opcode: byte, payload: seq<byte>, mask: Option<W.MaskKey>) returns (out: seq<byte>)
    requires |payload| < TWO64
    ensures out == W.Encode(W.Frame(opcode % 16, true, payload), mask)
  {
    hide W.Masked;
    var flag := if mask.Some? then 0x80 else 0;
    out := [0x80 + opcode % 16];
    var length := |payload|;
    if length <= 125 {
      out := out + [flag + length];
    } else if length <= 0xffff {
      out := out + [flag + 126];
      out := out + [length / 256 % 256];
      out := out + [length % 256];
      assert W.ToBigEndian(length, 2) == [length / 256 % 256, length % 256] by {
        assert W.ToBigEndian(length / 256, 1) == [length / 256 % 256];
      }
    } else {
      out := out + [flag + 127];
      ghost var prefix := out;
      var i := 7;
      while i >= 0
        invariant -1 <= i <= 7
        invariant out == prefix + W.ToBigEndian(length, 8)[..7 - i]
      {
        DigitOf(length, 8, 7 - i);
        out := out + [length / W.Pow256(i) % 256];
        i := i - 1;
      }
      assert W.ToBigEndian(length, 8)[..8] == W.ToBigEndian(length, 8);
    }
    assert out == [0x80 + opcode % 16] + W.LengthBytes(length, mask.Some?);

    if mask.Some? {
      ghost var header := out;
      out := out + mask.value;
      out := AppendMasked(out, payload, mask.value);
      assert out == header + (mask.value + W.Masked(payload, mask.value));
    } else {
      out := out + payload;
    }
  }

  method AppendMasked(prefix: seq<byte>, payload: seq<byte>, key: W.MaskKey) returns (out: seq<byte>)
    ensures out == prefix + W.Masked(payload, key)
  {
    hide XorByte;
    out := prefix;
    var i := 0;
    while i < |payload|
      invariant 0 <= i <= |payload|
      invariant out == prefix + W.Masked(payload, key)[..i]
    {
      out := out + [XorByte(payload[i], key[i % 4])];
      i := i + 1;
    }
    assert W.Masked(payload, key)[..i] == W.Masked(payload, key);
  }

  method XorSecureEnvelope(data: seq<byte>) returns (out: seq<byte>)
    ensures out == W.SecureEnvelope(data) && W.SecureEnvelope(out) == data
  {
    hide XorByte;
    out := [];
    var i := 0;
    while i < |data|
      invariant 0 <= i <= |data| && |out| == i
      invariant forall j :: 0 <= j < i ==> out[j] == XorByte(data[j], 0xA5)
    {
      out := out + [XorByte(data[i], 0xA5)];
      i := i + 1;
    }
    W.SecureEnvelopeTwice(data);
  }

  class WsReceiver {
    var m_wsRxBuffer: seq<byte>
    var m_wsFragmentBuffer: seq<byte>
    var m_wsPongsReceived: nat
    var m_wsMessagesReceived: nat
    var m_wsBytesReceived: nat
    var m_closed: bool
    // What the message callback was given and the pongs that were sent, in order.
    var m_delivered: seq<seq<byte>>
    var m_pongsSent: seq<seq<byte>>

    ghost function State(): W.Receiver
      reads this
    {
      W.Receiver(m_wsRxBuffer, m_wsFragmentBuffer, m_delivered, m_pongsSent, m_wsPongsReceived,
                 m_wsMessagesReceived, m_wsBytesReceived, m_closed)
    }

    constructor ()
      ensures State() == W.FRESH_RECEIVER
    {
      m_wsRxBuffer, m_wsFragmentBuffer := [], [];
      m_wsPongsReceived, m_wsMessagesReceived, m_wsBytesReceived := 0, 0, 0;
      m_closed := false;
      m_delivered, m_pongsSent := [], [];
    }

    /** One read from the socket. */
    method OnRead(chunk: seq<byte>)
      modifies this
      ensures State() == W.Feed(old(State()), chunk)
    {
      if m_closed {
        return;
      }
      m_wsRxBuffer := m_wsRxBuffer + chunk;
      ProcessWsRxBuffer();
    }

    /** Takes the first complete frame off the buffer. An oversized one empties it and counts as a close. */
    method PopOneFrame() returns (frame: Option<W.Frame>)
      modifies this
      ensures match W.PopOne(old(m_wsRxBuffer))
              case NeedMore => frame == None && State() == old(State())
              case Oversized =>
                frame == Some(W.Frame(W.CLOSE, true, [])) && State() == old(State()).(buffer := [])
              case Popped(f, n) => frame == Some(f) && State() == old(State()).(buffer := old(m_wsRxBuffer)[n..])
    {
      hide W.FromBigEndian, W.Masked;
      if |m_wsRxBuffer| < 2 {
        return None;
      }
      var idx := 2;
      var b0, b1 := m_wsRxBuffer[0], m_wsRxBuffer[1];
      var fin, opcode, masked := b0 >= 0x80, b0 % 16, b1 >= 0x80;

      var payloadLen: nat := b1 % 0x80;
      if payloadLen == 126 {
        if |m_wsRxBuffer| < idx + 2 {
          return None;
        }
        payloadLen := ReadLength(2);
        idx := idx + 2;
      } else if payloadLen == 127 {
        if |m_wsRxBuffer| < idx + 8 {
          return None;
        }
        payloadLen := ReadLength(8);
        idx := idx + 8;
      }

      var maskKey: W.MaskKey := [0, 0, 0, 0];
      if masked {
        if |m_wsRxBuffer| < idx + 4 {
          return None;
        }
        maskKey := m_wsRxBuffer[idx..idx + 4];
        idx := idx + 4;
      }

      if payloadLen > W.MAX_PAYLOAD {
        m_wsRxBuffer := [];
        return Some(W.Frame(W.CLOSE, true, []));
      }
      if |m_wsRxBuffer| < idx + payloadLen {
        return None;
      }
      var payload := Unmask(m_wsRxBuffer[idx..idx + payloadLen], masked, maskKey);
      m_wsRxBuffer := m_wsRxBuffer[idx + payloadLen..];
      frame := Some(W.Frame(opcode, fin, payload));
    }

    /** The big-endian length in the `width` bytes behind the first two. */
    method ReadLength(width: nat) returns (length: nat)
      requires |m_wsRxBuffer| >= 2 + width
      ensures length == W.FromBigEndian(m_wsRxBuffer[2..2 + width])
    {
      length := 0;
      var i := 0;
      while i < width
        invariant 0 <= i <= width
        invariant length == W.FromBigEndian(m_wsRxBuffer[2..2 + i])
      {
        assert m_wsRxBuffer[2..2 + i + 1][..i] == m_wsRxBuffer[2..2 + i];
        length := length * 256 + m_wsRxBuffer[2 + i];
        i := i + 1;
      }
    }

    static method Unmask(raw: seq<byte>, masked: bool, key: W.MaskKey) returns (payload: seq<byte>)
      ensures payload == if masked then W.Masked(raw, key) else raw
    {
      payload := [];
      var i := 0;
      while i < |raw|
        invariant 0 <= i <= |raw|
        invariant payload == (if masked then W.Masked(raw, key) else raw)[..i]
      {
        var v := raw[i];
        if masked {
          v := XorByte(v, key[i % 4]);
        }
        payload := payload + [v];
        i := i + 1;
      }
    }

    method ProcessWsRxBuffer()
      requires !m_closed
      modifies this
      ensures State() == W.Drain(old(State()))
    {
      hide W.PopOne;
      while true
        invariant !m_closed
        invariant W.Drain(State()) == W.Drain(old(State()))
        decreases |m_wsRxBuffer|
      {
        ghost var before := State();
        var frameOpt := PopOneFrame();
        if frameOpt.None? {
          return;
        }
        var frame := frameOpt.value;
        if frame.opcode == W.CLOSE {
          HandleDisconnect();
          return;
        }
        HandleOpenFrame(frame);
      }
    }

    method HandleDisconnect()
      modifies this
      ensures State() == W.Shut(old(State()))
    {
      m_wsRxBuffer := [];
      m_wsFragmentBuffer := [];
      m_closed := true;
    }

    method HandleOpenFrame(frame: W.Frame)
      requires !m_closed && frame.opcode != W.CLOSE
      modifies this
      ensures State() == W.HandleFrame(old(State()), frame) && !m_closed
    {
      if frame.opcode == W.PING {
        m_pongsSent := m_pongsSent + [frame.payload];
      } else if frame.opcode == W.PONG {
        m_wsPongsReceived := m_wsPongsReceived + 1;
      } else if frame.opcode == W.CONTINUATION {
        m_wsFragmentBuffer := m_wsFragmentBuffer + frame.payload;
        if frame.fin {
          if m_wsFragmentBuffer != [] {
            m_delivered := m_delivered + [m_wsFragmentBuffer];
          }
          m_wsMessagesReceived := m_wsMessagesReceived + 1;
          m_wsBytesReceived := m_wsBytesReceived + |m_wsFragmentBuffer|;
          m_wsFragmentBuffer := [];
        }
      } else if (frame.opcode == W.TEXT || frame.opcode == W.BINARY) && !frame.fin {
        m_wsFragmentBuffer := frame.payload;
      } else if frame.opcode == W.TEXT || frame.opcode == W.BINARY {
        m_delivered := m_delivered + [frame.payload];
        m_wsMessagesReceived := m_wsMessagesReceived + 1;
        m_wsBytesReceived := m_wsBytesReceived + |frame.payload|;
      }
    }
  }
}
